/**
  The request middleware: a request for the bare components index of the docs
  is redirected to the docs home, and every other request passes through. The
  framework only invokes the middleware for paths its `matcher` accepts.
 */
module Middleware {

  /** What the middleware returns: a redirect, or nothing (the request goes on
      to the page). */
  datatype Outcome = Redirect(location: string) | PassThrough

  const ComponentsIndex: string := "/docs/components"
  const DocsHome: string := "/docs"

  /** The `config.matcher` pattern: the single literal path. */
  predicate Matches(pathname: string) {
    pathname == ComponentsIndex
  }

  /** The middleware function applied to a request's pathname. */
  function HandleRequest(pathname: string): (r: Outcome)
    ensures r.Redirect? <==> pathname == "/docs/components"
    ensures r.Redirect? ==> r.location == "/docs"
  {
    if pathname == ComponentsIndex then Redirect(DocsHome) else PassThrough
  }

  /** What the framework does with a request: run the middleware when the
      matcher accepts the path, let the request through otherwise. */
  function Route(pathname: string): (r: Outcome)
    ensures r == HandleRequest(pathname)
  {
    if Matches(pathname) then HandleRequest(pathname) else PassThrough
  }

  /** The match is exact: a longer path under the components index, such as a
      single component's page, is not redirected. */
  lemma ExactMatchOnly(rest: string)
    requires |rest| > 0
    ensures HandleRequest(ComponentsIndex + rest) == PassThrough
  {
    assert |ComponentsIndex + rest| != |ComponentsIndex|;
  }

  /** The redirect target is not itself redirected, so following the redirect
      terminates after one hop. */
  lemma RedirectTerminates(pathname: string)
    ensures HandleRequest(pathname).Redirect? ==>
      HandleRequest(HandleRequest(pathname).location) == PassThrough
  {
    assert |DocsHome| != |ComponentsIndex|;
  }
}
