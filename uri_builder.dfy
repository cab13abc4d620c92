/**
 * `org.apache.http.client.utils.URIBuilder` as `addQueryParams` uses it: the path is
 * split into what precedes the query, the query and the fragment; `addParameter`
 * appends a form-encoded `name=value` pair after the existing query; `build().toString()`
 * puts the parts back together.
 */
module UriBuilder {
  import opened Wrappers
  import opened UriSyntax
  import FormCodec

  datatype UriParts = UriParts(head: string, query: Option<string>, fragment: Option<string>)

  type QueryPair = (string, string)

  /** The parts of a reference: before the first '?', up to the first '#', and after it. */
  function SplitUri(s: string): UriParts {
    var h := IndexOfAny(s, {'#'});
    var body := s[..h];
    var q := IndexOfAny(body, {'?'});
    UriParts(body[..q],
             if q < |body| then Some(body[q + 1..]) else None,
             if h < |s| then Some(s[h + 1..]) else None)
  }

  function RenderPair(p: QueryPair): string {
    FormCodec.FormEncode(p.0) + "=" + FormCodec.FormEncode(p.1)
  }

  function JoinPairs(ps: seq<QueryPair>): string {
    if ps == [] then ""
    else if |ps| == 1 then RenderPair(ps[0])
    else RenderPair(ps[0]) + "&" + JoinPairs(ps[1..])
  }

  /** What precedes the first added pair: '?', or '?' with the existing query and '&'. */
  function QueryLead(existing: Option<string>): string {
    match existing
    case Some(q) => if q == "" then "?" else "?" + q + "&"
    case None => "?"
  }

  function QueryText(existing: Option<string>, added: seq<QueryPair>): string {
    if added != [] then QueryLead(existing) + JoinPairs(added)
    else match existing
      case Some(q) => "?" + q
      case None => ""
  }

  function FragmentText(fragment: Option<string>): string {
    match fragment
    case None => ""
    case Some(f) => "#" + f
  }

  /** `build().toString()` after `added` were passed to `addParameter`, in order. */
  function Render(u: UriParts, added: seq<QueryPair>): string {
    u.head + QueryText(u.query, added) + FragmentText(u.fragment)
  }

  predicate OccursAt(s: string, t: string, i: int) {
    0 <= i <= |s| - |t| && s[i..i + |t|] == t
  }

  /** `t` occurs in `s`. */
  ghost predicate Contains(s: string, t: string) {
    exists i :: OccursAt(s, t, i)
  }

  lemma ContainsInContext(a: string, s: string, b: string, t: string)
    requires Contains(s, t)
    ensures Contains(a + s + b, t)
  {
    var i :| OccursAt(s, t, i);
    var whole := a + s + b;
    assert whole[|a| + i..|a| + i + |t|] == s[i..i + |t|];
    assert OccursAt(whole, t, |a| + i);
  }

  /** `s` ends with `t`. */
  predicate EndsWith(s: string, t: string) {
    |t| <= |s| && s[|s| - |t|..] == t
  }

  /** `build().toString()` keeps the fragment, with its '#', at the end. */
  lemma RenderKeepsFragment(u: UriParts, added: seq<QueryPair>)
    requires u.fragment.Some?
    ensures EndsWith(Render(u, added), "#" + u.fragment.value)
  {
    var front := u.head + QueryText(u.query, added);
    var ft := "#" + u.fragment.value;
    assert Render(u, added) == front + ft;
    assert (front + ft)[|front|..] == ft;
  }

  /** Splitting and rebuilding without new parameters gives the reference back. */
  lemma SplitRenderRoundTrip(s: string)
    ensures Render(SplitUri(s), []) == s
  {
    var h := IndexOfAny(s, {'#'});
    var body := s[..h];
    var q := IndexOfAny(body, {'?'});
    var u := SplitUri(s);
    if q < |body| {
      assert body == body[..q] + "?" + body[q + 1..];
    } else {
      assert body[..q] == body;
    }
    if h < |s| {
      assert s == body + "#" + s[h + 1..];
    } else {
      assert body == s;
    }
  }

  /** Every pair passed to `addParameter` occurs, rendered, in the joined query. */
  lemma {:induction false} JoinContainsPair(ps: seq<QueryPair>, p: QueryPair)
    requires p in ps
    ensures Contains(JoinPairs(ps), RenderPair(p))
  {
    var r := RenderPair(p);
    if ps[0] == p {
      var j := JoinPairs(ps);
      assert j[0..|r|] == r;
      assert OccursAt(j, r, 0);
    } else {
      JoinContainsPair(ps[1..], p);
      ContainsInContext(RenderPair(ps[0]) + "&", JoinPairs(ps[1..]), "", r);
      assert JoinPairs(ps) == RenderPair(ps[0]) + "&" + JoinPairs(ps[1..]) + "";
    }
  }

  lemma PrefixOfConcat(a: string, b: string)
    ensures a <= a + b
  {
    assert (a + b)[..|a|] == a;
  }

  /** `build().toString()` keeps the part before the query in front. */
  lemma {:induction false} RenderKeepsHead(u: UriParts, added: seq<QueryPair>)
    ensures u.head <= Render(u, added)
  {
    var qt := QueryText(u.query, added);
    var ft := FragmentText(u.fragment);
    var r := Render(u, added);
    assert r == u.head + (qt + ft);
    PrefixOfConcat(u.head, qt + ft);
  }

  lemma {:induction false} PrefixBeforeSuffixes(lead: string, a: string, b: string)
    ensures lead <= lead + a + b
  {
    assert lead + a + b == lead + (a + b);
    PrefixOfConcat(lead, a + b);
  }

  /** `build().toString()` keeps a non-empty existing query right after that part. */
  lemma {:induction false} RenderKeepsQuery(u: UriParts, added: seq<QueryPair>)
    requires u.query.Some? && u.query.value != ""
    ensures u.head + "?" + u.query.value <= Render(u, added)
  {
    var q := u.query.value;
    var lead := u.head + "?" + q;
    var ft := FragmentText(u.fragment);
    if added == [] {
      assert Render(u, added) == lead + ft;
      PrefixOfConcat(lead, ft);
    } else {
      var j := JoinPairs(added);
      var r := Render(u, added);
      assert r == u.head + (QueryLead(u.query) + j) + ft;
      assert QueryLead(u.query) == "?" + q + "&";
      assert r == lead + ("&" + j) + ft;
      PrefixBeforeSuffixes(lead, "&" + j, ft);
    }
  }

  /** Every pair passed to `addParameter` occurs, form-encoded, in `build().toString()`. */
  lemma {:induction false} RenderAdds(u: UriParts, added: seq<QueryPair>, p: QueryPair)
    requires p in added
    ensures Contains(Render(u, added), RenderPair(p))
  {
    var j := JoinPairs(added);
    var ql := QueryLead(u.query);
    var ft := FragmentText(u.fragment);
    JoinContainsPair(added, p);
    assert QueryText(u.query, added) == ql + j;
    assert Render(u, added) == u.head + (ql + j) + ft;
    assert u.head + (ql + j) + ft == (u.head + ql) + j + ft;
    ContainsInContext(u.head + ql, j, ft, RenderPair(p));
  }

  /** A reference with one '?' and no '#' is split at the '?'. */
  lemma SplitAtQuery(head: string, q: string)
    requires '?' !in head && '#' !in head && '#' !in q
    ensures SplitUri(head + "?" + q) == UriParts(head, Some(q), None)
  {
    var s := head + "?" + q;
    assert '#' !in s;
    IndexOfAnyAt(s, {'#'}, |s|);
    assert s[..|s|] == s;
    assert forall j | 0 <= j < |head| :: s[j] == head[j];
    IndexOfAnyAt(s, {'?'}, |head|);
    assert s[..|head|] == head && s[|head| + 1..] == q;
  }

  /** A relative path of allowed characters, a '?' and a query of allowed characters parses. */
  lemma PathWithQueryParses(head: string, q: string)
    requires head != [] && head[0] == '/' && (|head| == 1 || head[1] != '/')
    requires forall i | 0 <= i < |head| :: Allowed(Path, head[i])
    requires forall i | 0 <= i < |q| :: Allowed(Uric, q[i]) && q[i] != '#'
    ensures UriParses(head + "?" + q)
  {
    var s := head + "?" + q;
    assert s[0] == '/';
    IndexOfAnyAt(s, {':', '/', '?', '#'}, 0);
    assert !ColonFirst(s);
    assert forall j | 0 <= j < |head| :: s[j] == head[j];
    IndexOfAnyAt(s, {'?', '#'}, |head|);
    assert s[..|head|] == head && s[|head|..] == "?" + q;
    AllowedComponentOk(head, Path);
    IndexOfAnyAt(q, {'#'}, |q|);
    assert q[..|q|] == q && q[|q|..] == [];
    AllowedComponentOk(q, Uric);
    assert QueryFragmentOk("?" + q);
    assert PathQueryFragmentOk(s);
  }

  lemma ConcatAfterQuery(head: string, q: string, x: string)
    ensures head + ("?" + q + "&" + x) + "" == head + "?" + q + "&" + x
  {
  }

  /** Pairs added to a reference with a non-empty query and no fragment go after an '&'. */
  lemma RenderAfterQuery(head: string, q: string, added: seq<QueryPair>)
    requires q != "" && added != []
    ensures Render(UriParts(head, Some(q), None), added) == head + "?" + q + "&" + JoinPairs(added)
  {
    assert QueryText(Some(q), added) == "?" + q + "&" + JoinPairs(added);
    ConcatAfterQuery(head, q, JoinPairs(added));
  }

  /** The part before the query is a prefix of the reference. */
  lemma SplitHeadIsPrefix(s: string)
    ensures SplitUri(s).head == s[..|SplitUri(s).head|]
    ensures SplitUri(s).query.Some? ==> |SplitUri(s).head| < |s| && s[|SplitUri(s).head|] == '?'
    ensures SplitUri(s).query.None? && SplitUri(s).fragment.Some? ==> |SplitUri(s).head| < |s| && s[|SplitUri(s).head|] == '#'
  {
    var h := IndexOfAny(s, {'#'});
    var body := s[..h];
    var q := IndexOfAny(body, {'?'});
    assert body[..q] == s[..q];
  }

  /** What follows the part before the query in a rebuilt reference starts with '?' or '#', if anything does. */
  lemma RenderAfterHead(u: UriParts, added: seq<QueryPair>)
    ensures |Render(u, added)| == |u.head| || Render(u, added)[|u.head|] in {'?', '#'}
  {
    var qt := QueryText(u.query, added);
    var ft := FragmentText(u.fragment);
    assert Render(u, added) == u.head + (qt + ft);
    assert qt != "" ==> qt[0] == '?';
    assert ft != "" ==> ft[0] == '#';
  }

  /**
   * Adding parameters never gives a reference a scheme: when no ':' precedes the first
   * '/', '?' or '#', none does after `build().toString()` either.
   */
  lemma {:induction false} RenderStaysRelative(s: string, added: seq<QueryPair>)
    requires !ColonFirst(s)
    ensures !ColonFirst(Render(SplitUri(s), added))
  {
    var u := SplitUri(s);
    var r := Render(u, added);
    var stops := {':', '/', '?', '#'};
    var k := SchemeEnd(s);
    var n := |u.head|;
    SplitHeadIsPrefix(s);
    RenderKeepsHead(u, added);
    assert r[..n] == u.head;
    assert forall j | 0 <= j < n :: r[j] == s[j];
    if k < n {
      IndexOfAnyAt(r, stops, k);
    } else {
      RenderAfterHead(u, added);
      if n < |r| {
        IndexOfAnyAt(r, stops, n);
      } else {
        IndexOfAnyAt(r, stops, |r|);
      }
    }
  }
}
