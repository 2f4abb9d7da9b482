/**
 * The route guard (`middleware`): without a session, a protected page
 * redirects to `/auth?redirectedFrom=<page>`; with one, the sign-in page
 * redirects to `/dashboard`; every other request passes through.
 */
module Middleware {
  import opened Wrappers
  import opened Text
  import opened Seqs
  import opened Records

  /** A query string's name-value pairs, in order; unlike an object's keys, a name may repeat. */
  type Query = seq<(string, string)>

  /** The request URL's parts the guard reads or rewrites; the rest is carried along unchanged. */
  datatype Url = Url(origin: string, pathname: string, searchParams: Query)

  datatype Response = Next | Redirect(to: Url)

  /** The `startsWith` chain over the protected sections: a plain prefix test. */
  predicate IsProtected(pathname: string) {
    || StartsWith(pathname, "/dashboard")
    || StartsWith(pathname, "/services")
    || StartsWith(pathname, "/templates")
    || StartsWith(pathname, "/contacts")
    || StartsWith(pathname, "/logs")
    || StartsWith(pathname, "/settings")
    || StartsWith(pathname, "/docs")
  }

  /** The test that keeps the pairs not named `name`. */
  function OtherName<V>(name: string): ((string, V)) -> bool {
    (pair: (string, V)) => pair.0 != name
  }

  /**
   * `URLSearchParams.set`: the first pair named `name` takes the value and
   * every later pair of that name is removed; without such a pair, one is
   * appended.
   */
  function SetParam<V(!new)>(params: seq<(string, V)>, name: string, value: V): (r: seq<(string, V)>)
    ensures |r| > 0
  {
    if |params| == 0 then [(name, value)]
    else if params[0].0 == name then [(name, value)] + Filter(params[1..], OtherName(name))
    else [params[0]] + SetParam(params[1..], name, value)
  }

  /** The pair set sits where the first pair of that name was, or at the end when there was none. */
  lemma {:induction false} SetParamPosition<V(!new)>(params: seq<(string, V)>, name: string, value: V)
    ensures IndexOf(Keys(SetParam(params, name, value)), name) == IndexOf(Keys(params), name)
    ensures IndexOf(Keys(params), name) < |SetParam(params, name, value)|
    ensures SetParam(params, name, value)[IndexOf(Keys(params), name)] == (name, value)
  {
    if |params| == 0 || params[0].0 == name {
      SetParamAtFront(params, name, value);
    } else {
      var rest := SetParam(params[1..], name, value);
      SetParamPosition(params[1..], name, value);
      assert params == [params[0]] + params[1..];
      var j := IndexOf(Keys(params[1..]), name);
      IndexOfKeyCons(params[0], params[1..], name);
      IndexOfKeyCons(params[0], rest, name);
      var r := SetParam(params, name, value);
      assert r == [params[0]] + rest;
      assert IndexOf(Keys(params), name) == 1 + j;
      assert IndexOf(Keys(r), name) == 1 + j;
      assert r[1 + j] == rest[j] == (name, value);
    }
  }

  /** With no pairs, or the name first, the pair set comes first. */
  lemma SetParamAtFront<V(!new)>(params: seq<(string, V)>, name: string, value: V)
    requires |params| == 0 || params[0].0 == name
    ensures IndexOf(Keys(SetParam(params, name, value)), name) == 0 == IndexOf(Keys(params), name)
    ensures SetParam(params, name, value)[0] == (name, value)
  {
    assert Keys(SetParam(params, name, value))[0] == name;
    if |params| > 0 {
      assert Keys(params)[0] == name;
    }
  }

  /** After `set`, no other pair carries the name. */
  lemma {:induction false} SetParamOnlyOne<V(!new)>(params: seq<(string, V)>, name: string, value: V)
    ensures forall n :: 0 <= n < |SetParam(params, name, value)| && SetParam(params, name, value)[n].0 == name ==>
      n == IndexOf(Keys(SetParam(params, name, value)), name)
  {
    var r := SetParam(params, name, value);
    if |params| > 0 {
      if params[0].0 == name {
        forall n | 0 < n < |r| ensures r[n].0 != name {
          assert r[n] in Filter(params[1..], OtherName(name));
        }
      } else {
        var rest := SetParam(params[1..], name, value);
        SetParamOnlyOne(params[1..], name, value);
        KeysCons(params[0], rest);
        forall n | 0 < n < |r| && r[n].0 == name ensures n == IndexOf(Keys(r), name) {
          assert r[n] == rest[n - 1];
        }
      }
    }
  }

  /** `set` keeps every pair of another name, in order. */
  lemma {:induction false} SetParamOthers<V(!new)>(params: seq<(string, V)>, name: string, value: V)
    ensures Filter(SetParam(params, name, value), OtherName(name)) == Filter(params, OtherName(name))
  {
    var keep := OtherName<V>(name);
    if |params| > 0 {
      assert params == [params[0]] + params[1..];
      FilterCons(params[0], params[1..], keep);
      if params[0].0 == name {
        var others := Filter(params[1..], keep);
        FilterAllPass(others, keep);
        FilterCons((name, value), others, keep);
      } else {
        SetParamOthers(params[1..], name, value);
        FilterCons(params[0], SetParam(params[1..], name, value), keep);
      }
    }
  }

  /** The guard's decision for a request, given whether a session exists. */
  function Decide(hasSession: bool, url: Url): (r: Response)
    ensures !hasSession && IsProtected(url.pathname) ==>
      && r.Redirect?
      && r.to.pathname == "/auth"
      && r.to.origin == url.origin
      && Lookup(r.to.searchParams, "redirectedFrom") == Some(url.pathname)
      && (forall n :: 0 <= n < |r.to.searchParams| && r.to.searchParams[n].0 == "redirectedFrom" ==>
            n == IndexOf(Keys(r.to.searchParams), "redirectedFrom"))
      && Filter(r.to.searchParams, OtherName("redirectedFrom")) == Filter(url.searchParams, OtherName("redirectedFrom"))
    ensures hasSession && StartsWith(url.pathname, "/auth") ==> r == Redirect(url.(pathname := "/dashboard"))
    ensures r == Next <==> !(!hasSession && IsProtected(url.pathname)) && !(hasSession && StartsWith(url.pathname, "/auth"))
  {
    if !hasSession && IsProtected(url.pathname) then
      SetParamPosition(url.searchParams, "redirectedFrom", url.pathname);
      SetParamOnlyOne(url.searchParams, "redirectedFrom", url.pathname);
      SetParamOthers(url.searchParams, "redirectedFrom", url.pathname);
      Redirect(url.(pathname := "/auth", searchParams := SetParam(url.searchParams, "redirectedFrom", url.pathname)))
    else if hasSession && StartsWith(url.pathname, "/auth") then
      Redirect(url.(pathname := "/dashboard"))
    else
      Next
  }

  /** Repeated pairs of the name set collapse into the one pair set. */
  lemma SetDropsRepeats(params: Query, name: string, a: string, b: string, value: string)
    requires params == [(name, a), (name, b)]
    ensures SetParam(params, name, value) == [(name, value)]
  {
    assert params[1..] == [(name, b)];
    assert Filter([(name, b)], OtherName(name)) == [];
  }

  /** A signed-out visit to a protected page whose query repeats `redirectedFrom` keeps a single one. */
  lemma RepeatedRedirectedFrom(url: Url, a: string, b: string)
    requires IsProtected(url.pathname)
    requires url.searchParams == [("redirectedFrom", a), ("redirectedFrom", b)]
    ensures Decide(false, url).to.searchParams == [("redirectedFrom", url.pathname)]
  {
    SetDropsRepeats(url.searchParams, "redirectedFrom", a, b, url.pathname);
  }

  /** A signed-in user is never sent to `/auth`, and a signed-out one never to `/dashboard`. */
  lemma NeverCrossRedirect(hasSession: bool, url: Url)
    ensures hasSession && Decide(hasSession, url).Redirect? ==> Decide(hasSession, url).to.pathname == "/dashboard"
    ensures !hasSession && Decide(hasSession, url).Redirect? ==> Decide(hasSession, url).to.pathname == "/auth"
  {
  }

  /** `/auth` is not protected and `/dashboard` is not under `/auth`. */
  lemma TargetsPassThrough()
    ensures !IsProtected("/auth")
    ensures !StartsWith("/dashboard", "/auth")
  {
    var auth := "/auth";
    assert auth[..5][1] != "/logs"[1] && auth[..5][1] != "/docs"[1];
    assert "/dashboard"[..5][1] != auth[1];
  }

  /** Following a redirect with the same session passes the guard: there is no redirect loop. */
  lemma NoRedirectLoop(hasSession: bool, url: Url)
    requires Decide(hasSession, url).Redirect?
    ensures Decide(hasSession, Decide(hasSession, url).to) == Next
  {
    TargetsPassThrough();
  }

  /** The prefix test is textual: `/docsX` is protected and `/authorize` counts as the sign-in page. */
  lemma PlainPrefixMatching(docs: string, authorize: string)
    requires docs == "/docsX" && authorize == "/authorize"
    ensures IsProtected(docs)
    ensures StartsWith(authorize, "/auth")
  {
    assert docs[..5] == "/docs";
  }
}
