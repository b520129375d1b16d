/**
  The component registry: the `components` list and the schema its header
  comment prescribes for every entry.

  Component source text is inert data here. Each entry's text is a named
  constant whose value is a placeholder; where an entry repeats its source in a
  file's `content`, the source repeats the identical literal, so the model uses
  the same constant for both.
 */
module Registry {
  import opened Wrappers

  datatype PackageManager = Npm | Pnpm | Yarn | Bun

  /** One file of an entry: its install path, its type and, optionally, its text. */
  datatype RegistryFile = RegistryFile(path: string, fileType: string, content: Option<string>)

  /** The install command for each package manager. */
  datatype Cli = Cli(npm: string, pnpm: string, yarn: string, bun: string) {
    function Command(pm: PackageManager): string {
      match pm
      case Npm => npm
      case Pnpm => pnpm
      case Yarn => yarn
      case Bun => bun
    }
  }

  datatype RegistryItem = RegistryItem(
    name: string,
    itemType: string,
    category: string,
    subcategory: string,
    code: string,
    files: seq<RegistryFile>,
    cli: Cli,
    dependencies: seq<string>)

  const RegistryUi: string := "registry:ui"
  const ComponentsCategory: string := "components"

  /** The command line each package manager uses to run the CLI's `add`:
      its launcher followed by "prismui@latest add ". */
  function AddPrefix(pm: PackageManager): string {
    match pm
    case Npm => "npx prismui@latest add "
    case Pnpm => "pnpm dlx prismui@latest add "
    case Yarn => "yarn dlx prismui@latest add "
    case Bun => "bunx prismui@latest add "
  }

  /** The install command the schema prescribes for a component. */
  function InstallCommand(pm: PackageManager, name: string): string {
    AddPrefix(pm) + name
  }

  /** The path the schema prescribes for a component's main file. */
  function ComponentPath(name: string): string {
    "components/prismui/" + (name + ".tsx")
  }

  /** One entry follows the schema: its type and category, the four install
      commands derived from its name, a first file at the derived path, every
      file of type "registry:ui" whose text (when given) is the entry's code,
      and at least one dependency. */
  predicate WellFormedItem(item: RegistryItem) {
    && item.itemType == RegistryUi
    && item.category == ComponentsCategory
    && (forall pm: PackageManager :: item.cli.Command(pm) == InstallCommand(pm, item.name))
    && |item.files| > 0
    && item.files[0].path == ComponentPath(item.name)
    && (forall i :: 0 <= i < |item.files| ==> item.files[i].fileType == RegistryUi)
    && (forall i :: 0 <= i < |item.files| && item.files[i].content.Some? ==>
          item.files[i].content.value == item.code)
    && |item.dependencies| > 0
  }

  predicate UniqueNames(items: seq<RegistryItem>) {
    forall i, j :: 0 <= i < j < |items| ==> items[i].name != items[j].name
  }

  predicate WellFormedRegistry(items: seq<RegistryItem>) {
    && UniqueNames(items)
    && forall i :: 0 <= i < |items| ==> WellFormedItem(items[i])
  }

  /** Different names never share an install command or a file path, so
      unique names give unique commands and paths. */
  lemma DerivedStringsInjective(pm: PackageManager, a: string, b: string)
    ensures InstallCommand(pm, a) == InstallCommand(pm, b) ==> a == b
    ensures ComponentPath(a) == ComponentPath(b) ==> a == b
  {
    var pre := AddPrefix(pm);
    if InstallCommand(pm, a) == InstallCommand(pm, b) {
      assert a == InstallCommand(pm, a)[|pre|..];
      assert b == InstallCommand(pm, b)[|pre|..];
    }
    if ComponentPath(a) == ComponentPath(b) {
      var n := |"components/prismui/"|;
      assert |a| == |b|;
      assert a == ComponentPath(a)[n..n + |a|];
      assert b == ComponentPath(b)[n..n + |b|];
    }
  }

  /** In a well-formed registry no two entries share an install command. */
  lemma UniqueInstallCommands(items: seq<RegistryItem>, pm: PackageManager)
    requires WellFormedRegistry(items)
    ensures forall i, j :: 0 <= i < j < |items| ==> items[i].cli.Command(pm) != items[j].cli.Command(pm)
  {
    forall i, j | 0 <= i < j < |items|
      ensures items[i].cli.Command(pm) != items[j].cli.Command(pm)
    {
      assert WellFormedItem(items[i]) && WellFormedItem(items[j]);
      DerivedStringsInjective(pm, items[i].name, items[j].name);
    }
  }

  // ---------------------------------------------------------------------------
  // The registered components, in source order. Source texts are placeholders.

  const WordRevealCode: string := "<source of word-reveal>"
  const CardCode: string := "<source of card>"
  const LogoCarouselCode: string := "<source of logo-carousel>"
  const FloatingActionPanelCode: string := "<source of floating-action-panel>"
  const HeroBadgeCode: string := "<source of hero-badge>"
  const ActionButtonCode: string := "<source of action-button>"
  const ButtonGroupCode: string := "<source of button-group>"

  const WordReveal: RegistryItem := RegistryItem(
    "word-reveal", "registry:ui", "components", "animation", WordRevealCode,
    [RegistryFile("components/prismui/word-reveal.tsx", "registry:ui", Some(WordRevealCode))],
    Cli("npx prismui@latest add word-reveal",
        "pnpm dlx prismui@latest add word-reveal",
        "yarn dlx prismui@latest add word-reveal",
        "bunx prismui@latest add word-reveal"),
    ["@/lib/utils", "framer-motion"])

  const Card: RegistryItem := RegistryItem(
    "card", "registry:ui", "components", "layout", CardCode,
    [RegistryFile("components/prismui/card.tsx", "registry:ui", Some(CardCode))],
    Cli("npx prismui@latest add card",
        "pnpm dlx prismui@latest add card",
        "yarn dlx prismui@latest add card",
        "bunx prismui@latest add card"),
    ["@/lib/utils"])

  const LogoCarousel: RegistryItem := RegistryItem(
    "logo-carousel", "registry:ui", "components", "display", LogoCarouselCode,
    [RegistryFile("components/prismui/logo-carousel.tsx", "registry:ui", Some(LogoCarouselCode))],
    Cli("npx prismui@latest add logo-carousel",
        "pnpm dlx prismui@latest add logo-carousel",
        "yarn dlx prismui@latest add logo-carousel",
        "bunx prismui@latest add logo-carousel"),
    ["framer-motion"])

  const FloatingActionPanel: RegistryItem := RegistryItem(
    "floating-action-panel", "registry:ui", "components", "overlay", FloatingActionPanelCode,
    [RegistryFile("components/prismui/floating-action-panel.tsx", "registry:ui", None)],
    Cli("npx prismui@latest add floating-action-panel",
        "pnpm dlx prismui@latest add floating-action-panel",
        "yarn dlx prismui@latest add floating-action-panel",
        "bunx prismui@latest add floating-action-panel"),
    ["@/lib/utils", "framer-motion", "lucide-react"])

  const HeroBadge: RegistryItem := RegistryItem(
    "hero-badge", "registry:ui", "components", "display", HeroBadgeCode,
    [RegistryFile("components/prismui/hero-badge.tsx", "registry:ui", None)],
    Cli("npx prismui@latest add hero-badge",
        "pnpm dlx prismui@latest add hero-badge",
        "yarn dlx prismui@latest add hero-badge",
        "bunx prismui@latest add hero-badge"),
    ["@/lib/utils", "framer-motion"])

  const ActionButton: RegistryItem := RegistryItem(
    "action-button", "registry:ui", "components", "form", ActionButtonCode,
    [RegistryFile("components/prismui/action-button.tsx", "registry:ui", None)],
    Cli("npx prismui@latest add action-button",
        "pnpm dlx prismui@latest add action-button",
        "yarn dlx prismui@latest add action-button",
        "bunx prismui@latest add action-button"),
    ["@/lib/utils", "lucide-react", "class-variance-authority", "@/components/ui/button"])

  const ButtonGroup: RegistryItem := RegistryItem(
    "button-group", "registry:ui", "components", "form", ButtonGroupCode,
    [RegistryFile("components/prismui/button-group.tsx", "registry:ui", None)],
    Cli("npx prismui@latest add button-group",
        "pnpm dlx prismui@latest add button-group",
        "yarn dlx prismui@latest add button-group",
        "bunx prismui@latest add button-group"),
    ["@/lib/utils", "class-variance-authority"])

  const Components: seq<RegistryItem> :=
    [WordReveal, Card, LogoCarousel, FloatingActionPanel, HeroBadge, ActionButton, ButtonGroup]

  /** The install commands of an entry, checked one package manager at a time. */
  lemma CommandsDerived(item: RegistryItem)
    requires item.cli.npm == InstallCommand(Npm, item.name)
    requires item.cli.pnpm == InstallCommand(Pnpm, item.name)
    requires item.cli.yarn == InstallCommand(Yarn, item.name)
    requires item.cli.bun == InstallCommand(Bun, item.name)
    ensures forall pm: PackageManager :: item.cli.Command(pm) == InstallCommand(pm, item.name)
  {
    forall pm: PackageManager ensures item.cli.Command(pm) == InstallCommand(pm, item.name) {
      match pm
      case Npm =>
      case Pnpm =>
      case Yarn =>
      case Bun =>
    }
  }

  // Each literal of an entry is checked in a lemma of its own: one string
  // equality per proof keeps the solver's work on sequence literals small.

  lemma WordRevealNpm() ensures "npx prismui@latest add " + "word-reveal" == "npx prismui@latest add word-reveal" {}
  lemma WordRevealPnpm() ensures "pnpm dlx prismui@latest add " + "word-reveal" == "pnpm dlx prismui@latest add word-reveal" {}
  lemma WordRevealYarn() ensures "yarn dlx prismui@latest add " + "word-reveal" == "yarn dlx prismui@latest add word-reveal" {}
  lemma WordRevealBun() ensures "bunx prismui@latest add " + "word-reveal" == "bunx prismui@latest add word-reveal" {}
  lemma WordRevealFileName() ensures "word-reveal" + ".tsx" == "word-reveal.tsx" {}
  lemma WordRevealPath() ensures "components/prismui/" + "word-reveal.tsx" == "components/prismui/word-reveal.tsx" {}

  lemma WordRevealWellFormed()
    ensures WellFormedItem(WordReveal)
  {
    WordRevealNpm();
    WordRevealPnpm();
    WordRevealYarn();
    WordRevealBun();
    WordRevealFileName();
    WordRevealPath();
    CommandsDerived(WordReveal);
  }

  lemma CardNpm() ensures "npx prismui@latest add " + "card" == "npx prismui@latest add card" {}
  lemma CardPnpm() ensures "pnpm dlx prismui@latest add " + "card" == "pnpm dlx prismui@latest add card" {}
  lemma CardYarn() ensures "yarn dlx prismui@latest add " + "card" == "yarn dlx prismui@latest add card" {}
  lemma CardBun() ensures "bunx prismui@latest add " + "card" == "bunx prismui@latest add card" {}
  lemma CardFileName() ensures "card" + ".tsx" == "card.tsx" {}
  lemma CardPath() ensures "components/prismui/" + "card.tsx" == "components/prismui/card.tsx" {}

  lemma CardWellFormed()
    ensures WellFormedItem(Card)
  {
    CardNpm();
    CardPnpm();
    CardYarn();
    CardBun();
    CardFileName();
    CardPath();
    CommandsDerived(Card);
  }

  lemma LogoCarouselNpm() ensures "npx prismui@latest add " + "logo-carousel" == "npx prismui@latest add logo-carousel" {}
  lemma LogoCarouselPnpm() ensures "pnpm dlx prismui@latest add " + "logo-carousel" == "pnpm dlx prismui@latest add logo-carousel" {}
  lemma LogoCarouselYarn() ensures "yarn dlx prismui@latest add " + "logo-carousel" == "yarn dlx prismui@latest add logo-carousel" {}
  lemma LogoCarouselBun() ensures "bunx prismui@latest add " + "logo-carousel" == "bunx prismui@latest add logo-carousel" {}
  lemma LogoCarouselFileName() ensures "logo-carousel" + ".tsx" == "logo-carousel.tsx" {}
  lemma LogoCarouselPath() ensures "components/prismui/" + "logo-carousel.tsx" == "components/prismui/logo-carousel.tsx" {}

  lemma LogoCarouselWellFormed()
    ensures WellFormedItem(LogoCarousel)
  {
    LogoCarouselNpm();
    LogoCarouselPnpm();
    LogoCarouselYarn();
    LogoCarouselBun();
    LogoCarouselFileName();
    LogoCarouselPath();
    CommandsDerived(LogoCarousel);
  }

  lemma FloatingActionPanelNpm() ensures "npx prismui@latest add " + "floating-action-panel" == "npx prismui@latest add floating-action-panel" {}
  lemma FloatingActionPanelPnpm() ensures "pnpm dlx prismui@latest add " + "floating-action-panel" == "pnpm dlx prismui@latest add floating-action-panel" {}
  lemma FloatingActionPanelYarn() ensures "yarn dlx prismui@latest add " + "floating-action-panel" == "yarn dlx prismui@latest add floating-action-panel" {}
  lemma FloatingActionPanelBun() ensures "bunx prismui@latest add " + "floating-action-panel" == "bunx prismui@latest add floating-action-panel" {}
  lemma FloatingActionPanelFileName() ensures "floating-action-panel" + ".tsx" == "floating-action-panel.tsx" {}
  lemma FloatingActionPanelPath() ensures "components/prismui/" + "floating-action-panel.tsx" == "components/prismui/floating-action-panel.tsx" {}

  lemma FloatingActionPanelWellFormed()
    ensures WellFormedItem(FloatingActionPanel)
  {
    FloatingActionPanelNpm();
    FloatingActionPanelPnpm();
    FloatingActionPanelYarn();
    FloatingActionPanelBun();
    FloatingActionPanelFileName();
    FloatingActionPanelPath();
    CommandsDerived(FloatingActionPanel);
  }

  lemma HeroBadgeNpm() ensures "npx prismui@latest add " + "hero-badge" == "npx prismui@latest add hero-badge" {}
  lemma HeroBadgePnpm() ensures "pnpm dlx prismui@latest add " + "hero-badge" == "pnpm dlx prismui@latest add hero-badge" {}
  lemma HeroBadgeYarn() ensures "yarn dlx prismui@latest add " + "hero-badge" == "yarn dlx prismui@latest add hero-badge" {}
  lemma HeroBadgeBun() ensures "bunx prismui@latest add " + "hero-badge" == "bunx prismui@latest add hero-badge" {}
  lemma HeroBadgeFileName() ensures "hero-badge" + ".tsx" == "hero-badge.tsx" {}
  lemma HeroBadgePath() ensures "components/prismui/" + "hero-badge.tsx" == "components/prismui/hero-badge.tsx" {}

  lemma HeroBadgeWellFormed()
    ensures WellFormedItem(HeroBadge)
  {
    HeroBadgeNpm();
    HeroBadgePnpm();
    HeroBadgeYarn();
    HeroBadgeBun();
    HeroBadgeFileName();
    HeroBadgePath();
    CommandsDerived(HeroBadge);
  }

  lemma ActionButtonNpm() ensures "npx prismui@latest add " + "action-button" == "npx prismui@latest add action-button" {}
  lemma ActionButtonPnpm() ensures "pnpm dlx prismui@latest add " + "action-button" == "pnpm dlx prismui@latest add action-button" {}
  lemma ActionButtonYarn() ensures "yarn dlx prismui@latest add " + "action-button" == "yarn dlx prismui@latest add action-button" {}
  lemma ActionButtonBun() ensures "bunx prismui@latest add " + "action-button" == "bunx prismui@latest add action-button" {}
  lemma ActionButtonFileName() ensures "action-button" + ".tsx" == "action-button.tsx" {}
  lemma ActionButtonPath() ensures "components/prismui/" + "action-button.tsx" == "components/prismui/action-button.tsx" {}

  lemma ActionButtonWellFormed()
    ensures WellFormedItem(ActionButton)
  {
    ActionButtonNpm();
    ActionButtonPnpm();
    ActionButtonYarn();
    ActionButtonBun();
    ActionButtonFileName();
    ActionButtonPath();
    CommandsDerived(ActionButton);
  }

  lemma ButtonGroupNpm() ensures "npx prismui@latest add " + "button-group" == "npx prismui@latest add button-group" {}
  lemma ButtonGroupPnpm() ensures "pnpm dlx prismui@latest add " + "button-group" == "pnpm dlx prismui@latest add button-group" {}
  lemma ButtonGroupYarn() ensures "yarn dlx prismui@latest add " + "button-group" == "yarn dlx prismui@latest add button-group" {}
  lemma ButtonGroupBun() ensures "bunx prismui@latest add " + "button-group" == "bunx prismui@latest add button-group" {}
  lemma ButtonGroupFileName() ensures "button-group" + ".tsx" == "button-group.tsx" {}
  lemma ButtonGroupPath() ensures "components/prismui/" + "button-group.tsx" == "components/prismui/button-group.tsx" {}

  lemma ButtonGroupWellFormed()
    ensures WellFormedItem(ButtonGroup)
  {
    ButtonGroupNpm();
    ButtonGroupPnpm();
    ButtonGroupYarn();
    ButtonGroupBun();
    ButtonGroupFileName();
    ButtonGroupPath();
    CommandsDerived(ButtonGroup);
  }

  /** The registered list satisfies the schema. */
  lemma ComponentsWellFormed()
    ensures |Components| == 7
    ensures WellFormedRegistry(Components)
  {
    WordRevealWellFormed();
    CardWellFormed();
    LogoCarouselWellFormed();
    FloatingActionPanelWellFormed();
    HeroBadgeWellFormed();
    ActionButtonWellFormed();
    ButtonGroupWellFormed();
    ComponentNamesUnique();
  }

  /** No two registered entries share a name. */
  lemma ComponentNamesUnique()
    ensures UniqueNames(Components)
  {
    forall i, j | 0 <= i < j < |Components| ensures Components[i].name != Components[j].name {
      // The seven names differ in length or in their first character.
      assert |Components[i].name| != |Components[j].name| || Components[i].name[0] != Components[j].name[0];
    }
  }
}
