/**
 * Which strings `new java.net.URI(s)` accepts (the grammar of RFC 2396 with the
 * deviations of Java's parser) and `URI.isAbsolute`: the reference has a scheme
 * (RFC 3986, sections 3.1 and 4.3).
 */
module UriSyntax {

  predicate IsAlpha(c: char) {
    'a' <= c <= 'z' || 'A' <= c <= 'Z'
  }

  predicate IsDigit(c: char) {
    '0' <= c <= '9'
  }

  predicate IsHex(c: char) {
    IsDigit(c) || 'a' <= c <= 'f' || 'A' <= c <= 'F'
  }

  predicate IsUnreserved(c: char) {
    IsAlpha(c) || IsDigit(c) || c in "-_.!~*'()"
  }

  predicate IsReserved(c: char) {
    c in ";/?:@&=+$,[]"
  }

  predicate IsSchemeChar(c: char) {
    IsAlpha(c) || IsDigit(c) || c in "+-."
  }

  /** `Character.isSpaceChar`: the Unicode space, line and paragraph separators. */
  predicate IsSpaceChar(c: char) {
    c == ' ' || c == '\U{A0}' || c == '\U{1680}' || '\U{2000}' <= c <= '\U{200A}'
    || c == '\U{2028}' || c == '\U{2029}' || c == '\U{202F}' || c == '\U{205F}' || c == '\U{3000}'
  }

  /** `Character.isISOControl`. */
  predicate IsIsoControl(c: char) {
    c <= '\U{1F}' || '\U{7F}' <= c <= '\U{9F}'
  }

  /** A visible non-ASCII character, which Java's parser accepts unescaped in any component. */
  predicate IsOther(c: char) {
    c as int > 128 && !IsSpaceChar(c) && !IsIsoControl(c)
  }

  /** The character classes of the components Java's parser checks. */
  datatype Component = Path | Uric | RegName

  predicate Allowed(comp: Component, c: char) {
    match comp
    case Path => IsUnreserved(c) || c in ":@&=+$,;/"
    case Uric => IsUnreserved(c) || IsReserved(c)
    case RegName => IsUnreserved(c) || c in "$,;:@&=+"
  }

  /** '?' and '#' delimit a path, and '#' a query. */
  lemma DelimitersNotAllowed()
    ensures !Allowed(Path, '?') && !Allowed(Path, '#') && !Allowed(Uric, '#')
  {
    assert '?' !in ":@&=+$,;/" && '#' !in ":@&=+$,;/";
    assert '?' !in "-_.!~*'()" && '#' !in "-_.!~*'()";
    assert '#' !in ";/?:@&=+$,[]";
  }

  /** Every character is allowed, visible non-ASCII, or part of a `%XX` escape. */
  predicate ComponentOk(s: string, comp: Component)
    decreases |s|
  {
    if s == [] then true
    else if Allowed(comp, s[0]) || IsOther(s[0]) then ComponentOk(s[1..], comp)
    else s[0] == '%' && |s| >= 3 && IsHex(s[1]) && IsHex(s[2]) && ComponentOk(s[3..], comp)
  }

  /** A component made of allowed characters only is well formed. */
  lemma {:induction false} AllowedComponentOk(s: string, comp: Component)
    requires forall i | 0 <= i < |s| :: Allowed(comp, s[i])
    ensures ComponentOk(s, comp)
  {
    if s != [] {
      AllowedComponentOk(s[1..], comp);
    }
  }

  /** The position of the first character of `s` in `stops`, or `|s|`. */
  function IndexOfAny(s: string, stops: set<char>): (i: nat)
    ensures i <= |s|
    ensures forall j | 0 <= j < i :: s[j] !in stops
    ensures i < |s| ==> s[i] in stops
  {
    if s == [] || s[0] in stops then 0 else 1 + IndexOfAny(s[1..], stops)
  }

  /** The first stop is at `k` when none comes before it and `k` is one or the end. */
  lemma IndexOfAnyAt(s: string, stops: set<char>, k: nat)
    requires k <= |s|
    requires forall j | 0 <= j < k :: s[j] !in stops
    requires k == |s| || s[k] in stops
    ensures IndexOfAny(s, stops) == k
  {
  }

  /** Where Java's parser stops looking for the ':' that ends a scheme. */
  function SchemeEnd(s: string): nat {
    IndexOfAny(s, {':', '/', '?', '#'})
  }

  /** A ':' comes before any '/', '?' or '#': Java's parser then reads a scheme. */
  predicate ColonFirst(s: string) {
    SchemeEnd(s) < |s| && s[SchemeEnd(s)] == ':'
  }

  predicate SchemeNameOk(name: string) {
    |name| > 0 && IsAlpha(name[0]) && forall i | 1 <= i < |name| :: IsSchemeChar(name[i])
  }

  /** The reference has a scheme: ALPHA *( ALPHA / DIGIT / "+" / "-" / "." ) ":" before any '/', '?', '#'. */
  predicate HasScheme(s: string) {
    ColonFirst(s) && SchemeNameOk(s[..SchemeEnd(s)])
  }

  /** `t` is empty or a '#' and a fragment. */
  predicate FragmentOk(t: string) {
    t == [] || (t[0] == '#' && ComponentOk(t[1..], Uric))
  }

  /** `t` is empty, or an optional '?'-query followed by an optional fragment. */
  predicate QueryFragmentOk(t: string) {
    if t != [] && t[0] == '?' then
      var rest := t[1..];
      var q := IndexOfAny(rest, {'#'});
      ComponentOk(rest[..q], Uric) && FragmentOk(rest[q..])
    else
      FragmentOk(t)
  }

  predicate PathQueryFragmentOk(t: string) {
    var q := IndexOfAny(t, {'?', '#'});
    ComponentOk(t[..q], Path) && QueryFragmentOk(t[q..])
  }

  /**
   * A hierarchical part: an optional "//" authority, then path, query and fragment.
   * Java accepts an empty authority before a path, query or fragment, not "//" alone.
   */
  predicate HierarchicalOk(t: string) {
    if |t| >= 2 && t[0] == '/' && t[1] == '/' then
      var a := t[2..];
      var q := IndexOfAny(a, {'/', '?', '#'});
      if q > 0 then ComponentOk(a[..q], RegName) && PathQueryFragmentOk(a[q..])
      else q < |a| && PathQueryFragmentOk(a)
    else
      PathQueryFragmentOk(t)
  }

  /** The non-empty opaque part of "scheme:opaque#fragment". */
  predicate OpaqueOk(t: string) {
    var q := IndexOfAny(t, {'#'});
    q > 0 && ComponentOk(t[..q], Uric) && FragmentOk(t[q..])
  }

  /** `new URI(s)` returns instead of throwing `URISyntaxException`. */
  predicate UriParses(s: string) {
    if ColonFirst(s) then
      var p := SchemeEnd(s);
      var t := s[p + 1..];
      SchemeNameOk(s[..p]) && if t != [] && t[0] == '/' then HierarchicalOk(t) else OpaqueOk(t)
    else
      HierarchicalOk(s)
  }

  /** For a string Java parses, being absolute is having a ':' before any '/', '?', '#'. */
  lemma ParsedAbsoluteIsColonFirst(s: string)
    requires UriParses(s)
    ensures HasScheme(s) <==> ColonFirst(s)
  {
  }

  /** A ':' before any '/', '?', '#' behind an invalid scheme name is a syntax error. */
  lemma InvalidSchemeFails(s: string)
    requires ColonFirst(s) && !SchemeNameOk(s[..SchemeEnd(s)])
    ensures !UriParses(s)
  {
  }

  /** A host of letters, digits, '.' and '-' followed by '/' ends at that '/'. */
  lemma HostEndsAtSlash(host: string, path: string)
    requires path != [] && path[0] == '/'
    requires forall i | 0 <= i < |host| :: IsAlpha(host[i]) || IsDigit(host[i]) || host[i] == '.' || host[i] == '-'
    ensures IndexOfAny(host + path, {'/', '?', '#'}) == |host|
  {
    var a := host + path;
    assert forall i | 0 <= i < |host| :: a[i] == host[i];
    IndexOfAnyAt(a, {'/', '?', '#'}, |host|);
  }

  /** A path of unreserved characters and '/' is a path with no query and no fragment. */
  lemma PlainPathOk(path: string)
    requires forall i | 0 <= i < |path| :: IsUnreserved(path[i]) || path[i] == '/'
    ensures PathQueryFragmentOk(path)
  {
    IndexOfAnyAt(path, {'?', '#'}, |path|);
    assert path[..|path|] == path && path[|path|..] == [];
    AllowedComponentOk(path, Path);
  }

  /** A network-path reference "//host/path" parses and has no scheme. */
  lemma NetworkPathParses(host: string, path: string)
    requires host != [] && path != [] && path[0] == '/'
    requires forall i | 0 <= i < |host| :: IsAlpha(host[i]) || IsDigit(host[i]) || host[i] == '.' || host[i] == '-'
    requires forall i | 0 <= i < |path| :: IsUnreserved(path[i]) || path[i] == '/'
    ensures UriParses("//" + host + path) && !ColonFirst("//" + host + path)
  {
    var s := "//" + host + path;
    var a := host + path;
    assert s[2..] == a;
    assert s[0] == '/' && s[1] == '/';
    IndexOfAnyAt(s, {':', '/', '?', '#'}, 0);
    HostEndsAtSlash(host, path);
    assert a[..|host|] == host && a[|host|..] == path;
    AllowedComponentOk(host, RegName);
    PlainPathOk(path);
  }
}
