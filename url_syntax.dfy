/** The language of the URL pattern in `isValidUrl` and of the item-page pattern
    tested before the browser is launched. Both are JavaScript regular
    expressions; they are given here as predicates on strings, part by part, in
    the order of the pattern:

      ^(https?:\/\/)?                                       scheme
      ((([a-z\d]([a-z\d-]*[a-z\d])*)\.)+[a-z]{2,}|           domain name
       ((\d{1,3}\.){3}\d{1,3}))                             or IPv4-shaped host
      (\:\d+)?                                              port
      (\/[-a-z\d%_.~+]*)*                                   path
      (\?[;&a-z\d%_.~+=-]*)?                                query
      (\#[-a-z\d_]*)?$                                      fragment

    with the `i` flag, so every `[a-z]` also admits `A`-`Z`. */
module UrlSyntax {
  import opened Text

  predicate IsLetter(c: char) {
    'a' <= c <= 'z' || 'A' <= c <= 'Z'
  }

  predicate IsAlnum(c: char) {
    IsLetter(c) || IsDigit(c)
  }

  function LowerChar(c: char): char {
    if 'A' <= c <= 'Z' then (c as int - 'A' as int + 'a' as int) as char else c
  }

  function Lower(s: string): (r: string)
    ensures |r| == |s| && forall i | 0 <= i < |s| :: r[i] == LowerChar(s[i])
  {
    seq(|s|, i requires 0 <= i < |s| => LowerChar(s[i]))
  }

  /** `(https?:\/\/)?`, in any case. */
  predicate IsScheme(p: string) {
    p == "" || Lower(p) == "http://" || Lower(p) == "https://"
  }

  /** Under the `i` flag the scheme is matched in any case: a text is a scheme
      exactly when its lower-case form is one. */
  lemma SchemeIgnoresCase(p: string)
    ensures IsScheme(p) <==> IsScheme(Lower(p))
  {
    assert Lower(Lower(p)) == Lower(p);
    if Lower(p) == "" {
      assert |p| == 0;
    }
  }

  lemma UpperCaseSchemeIsScheme()
    ensures IsScheme("HTTPS://")
  {
    assert Lower("HTTPS://") == "https://";
  }

  /** `[a-z\d]([a-z\d-]*[a-z\d])*`: letters, digits and hyphens, beginning and ending with a letter or digit. */
  predicate IsLabel(l: string) {
    |l| >= 1 && IsAlnum(l[0]) && IsAlnum(l[|l| - 1]) &&
    forall i | 0 <= i < |l| :: IsAlnum(l[i]) || l[i] == '-'
  }

  /** `(label\.)+`: one or more labels, each followed by a point. */
  predicate IsDottedLabels(d: string)
    decreases |d|
  {
    exists k | 0 < k < |d| :: d[k] == '.' && IsLabel(d[..k]) && (k + 1 == |d| || IsDottedLabels(d[k + 1..]))
  }

  /** `[a-z]{2,}` */
  predicate IsTopLevel(t: string) {
    |t| >= 2 && forall i | 0 <= i < |t| :: IsLetter(t[i])
  }

  predicate IsDomainName(h: string) {
    exists k | 0 < k < |h| :: IsDottedLabels(h[..k]) && IsTopLevel(h[k..])
  }

  /** `\d{1,3}`: one to three digits, whatever number they spell. */
  predicate IsOctet(o: string) {
    1 <= |o| <= 3 && AllDigits(o)
  }

  /** `(\d{1,3}\.){3}\d{1,3}` */
  predicate IsIpv4Shaped(h: string) {
    exists a, b, c | 0 < a < b < c < |h| ::
      h[a] == '.' && h[b] == '.' && h[c] == '.' &&
      IsOctet(h[..a]) && IsOctet(h[a + 1..b]) && IsOctet(h[b + 1..c]) && IsOctet(h[c + 1..])
  }

  predicate IsHost(h: string) {
    IsDomainName(h) || IsIpv4Shaped(h)
  }

  /** `(\:\d+)?` */
  predicate IsPort(p: string) {
    p == "" || (|p| >= 2 && p[0] == ':' && forall i | 1 <= i < |p| :: IsDigit(p[i]))
  }

  /** `[-a-z\d%_.~+]` */
  predicate IsPathChar(c: char) {
    IsAlnum(c) || c == '-' || c == '%' || c == '_' || c == '.' || c == '~' || c == '+'
  }

  /** `(\/[-a-z\d%_.~+]*)*`: empty, or a slash followed by path characters and further slashes. */
  predicate IsPath(p: string) {
    p == "" || (p[0] == '/' && forall i | 0 <= i < |p| :: p[i] == '/' || IsPathChar(p[i]))
  }

  /** `[;&a-z\d%_.~+=-]` */
  predicate IsQueryChar(c: char) {
    IsAlnum(c) || c == ';' || c == '&' || c == '%' || c == '_' || c == '.' || c == '~' || c == '+' || c == '=' || c == '-'
  }

  /** `(\?[;&a-z\d%_.~+=-]*)?` */
  predicate IsQuery(q: string) {
    q == "" || (q[0] == '?' && forall i | 1 <= i < |q| :: IsQueryChar(q[i]))
  }

  /** `[-a-z\d_]` */
  predicate IsFragmentChar(c: char) {
    IsAlnum(c) || c == '-' || c == '_'
  }

  /** `(\#[-a-z\d_]*)?` */
  predicate IsFragment(f: string) {
    f == "" || (f[0] == '#' && forall i | 1 <= i < |f| :: IsFragmentChar(f[i]))
  }

  /** What may follow the path: a query, then a fragment. */
  predicate AfterPath(t: string) {
    exists m | 0 <= m <= |t| :: IsQuery(t[..m]) && IsFragment(t[m..])
  }

  predicate AfterPort(t: string) {
    exists l | 0 <= l <= |t| :: IsPath(t[..l]) && AfterPath(t[l..])
  }

  predicate AfterHost(t: string) {
    exists k | 0 <= k <= |t| :: IsPort(t[..k]) && AfterPort(t[k..])
  }

  predicate AfterScheme(t: string) {
    exists j | 0 <= j <= |t| :: IsHost(t[..j]) && AfterHost(t[j..])
  }

  /** `isValidUrl(s)`: the whole string is a scheme, a host, a port, a path, a query and a fragment, in that order. */
  predicate IsValidUrl(s: string) {
    exists i | 0 <= i <= |s| :: IsScheme(s[..i]) && AfterScheme(s[i..])
  }

  /** The characters JavaScript's `.` does not match. */
  predicate IsLineTerminator(c: char) {
    c == '\n' || c == '\r' || c == '\U{2028}' || c == '\U{2029}'
  }

  predicate NoLineTerminator(s: string) {
    forall i | 0 <= i < |s| :: !IsLineTerminator(s[i])
  }

  /** `/^.*tradera\.(com|se)\/item.*$/`: without the `m` and `s` flags, `.*`
      cannot cross a line terminator, so the whole string must be free of them. */
  predicate IsItemUrl(s: string) {
    NoLineTerminator(s) && (Contains(s, "tradera.com/item") || Contains(s, "tradera.se/item"))
  }

  lemma NoLineTerminatorJoin(s: string, k: nat)
    requires k <= |s| && NoLineTerminator(s[..k]) && NoLineTerminator(s[k..])
    ensures NoLineTerminator(s)
  {
    forall i | 0 <= i < |s| ensures !IsLineTerminator(s[i]) {
      if i < k { assert s[i] == s[..k][i]; } else { assert s[i] == s[k..][i - k]; }
    }
  }

  lemma SchemeHasNoLineTerminator(p: string)
    requires IsScheme(p)
    ensures NoLineTerminator(p)
  {
    forall i | 0 <= i < |p| ensures !IsLineTerminator(p[i]) {
      var lowered := Lower(p)[i];
      assert lowered in "https://";
    }
  }

  lemma {:induction false} DottedLabelsHaveNoLineTerminator(d: string)
    requires IsDottedLabels(d)
    ensures NoLineTerminator(d)
    decreases |d|
  {
    var k :| 0 < k < |d| && d[k] == '.' && IsLabel(d[..k]) && (k + 1 == |d| || IsDottedLabels(d[k + 1..]));
    if k + 1 < |d| {
      DottedLabelsHaveNoLineTerminator(d[k + 1..]);
    }
    forall i | 0 <= i < |d| ensures !IsLineTerminator(d[i]) {
      if i < k {
        assert d[i] == d[..k][i];
      } else if i > k {
        assert d[i] == d[k + 1..][i - k - 1];
      }
    }
  }

  lemma PartsHaveNoLineTerminator(t: string)
    ensures IsTopLevel(t) || IsOctet(t) || IsPort(t) || IsPath(t) || IsQuery(t) || IsFragment(t) ==> NoLineTerminator(t)
  {
  }

  lemma DomainNameHasNoLineTerminator(h: string)
    requires IsDomainName(h)
    ensures NoLineTerminator(h)
  {
    var k :| 0 < k < |h| && IsDottedLabels(h[..k]) && IsTopLevel(h[k..]);
    DottedLabelsHaveNoLineTerminator(h[..k]);
    PartsHaveNoLineTerminator(h[k..]);
    NoLineTerminatorJoin(h, k);
  }

  lemma OctetsHaveNoLineTerminator(h: string, a: nat, b: nat, c: nat)
    requires 0 < a < b < c < |h| && h[a] == '.' && h[b] == '.' && h[c] == '.'
    requires IsOctet(h[..a]) && IsOctet(h[a + 1..b]) && IsOctet(h[b + 1..c]) && IsOctet(h[c + 1..])
    ensures NoLineTerminator(h)
  {
    forall i | 0 <= i < |h| ensures !IsLineTerminator(h[i]) {
      if i < a {
        assert IsDigit(h[..a][i]);
      } else if a < i < b {
        assert IsDigit(h[a + 1..b][i - a - 1]);
      } else if b < i < c {
        assert IsDigit(h[b + 1..c][i - b - 1]);
      } else if c < i {
        assert IsDigit(h[c + 1..][i - c - 1]);
      }
    }
  }

  lemma Ipv4ShapedHasNoLineTerminator(h: string)
    requires IsIpv4Shaped(h)
    ensures NoLineTerminator(h)
  {
    var a, b, c :| 0 < a < b < c < |h| &&
      h[a] == '.' && h[b] == '.' && h[c] == '.' &&
      IsOctet(h[..a]) && IsOctet(h[a + 1..b]) && IsOctet(h[b + 1..c]) && IsOctet(h[c + 1..]);
    OctetsHaveNoLineTerminator(h, a, b, c);
  }

  lemma AfterPortHasNoLineTerminator(u: string)
    requires AfterPort(u)
    ensures NoLineTerminator(u)
  {
    var l :| 0 <= l <= |u| && IsPath(u[..l]) && AfterPath(u[l..]);
    var v := u[l..];
    var m :| 0 <= m <= |v| && IsQuery(v[..m]) && IsFragment(v[m..]);
    PartsHaveNoLineTerminator(v[..m]);
    PartsHaveNoLineTerminator(v[m..]);
    NoLineTerminatorJoin(v, m);
    PartsHaveNoLineTerminator(u[..l]);
    NoLineTerminatorJoin(u, l);
  }

  lemma AfterHostHasNoLineTerminator(t: string)
    requires AfterHost(t)
    ensures NoLineTerminator(t)
  {
    var k :| 0 <= k <= |t| && IsPort(t[..k]) && AfterPort(t[k..]);
    PartsHaveNoLineTerminator(t[..k]);
    AfterPortHasNoLineTerminator(t[k..]);
    NoLineTerminatorJoin(t, k);
  }

  /** Every character a valid URL may hold is matched by `.`, so the item-page
      pattern reduces to a substring test on valid URLs. */
  lemma ValidUrlHasNoLineTerminator(s: string)
    requires IsValidUrl(s)
    ensures NoLineTerminator(s)
  {
    var i :| 0 <= i <= |s| && IsScheme(s[..i]) && AfterScheme(s[i..]);
    var t := s[i..];
    var j :| 0 <= j <= |t| && IsHost(t[..j]) && AfterHost(t[j..]);
    SchemeHasNoLineTerminator(s[..i]);
    if IsDomainName(t[..j]) {
      DomainNameHasNoLineTerminator(t[..j]);
    } else {
      Ipv4ShapedHasNoLineTerminator(t[..j]);
    }
    AfterHostHasNoLineTerminator(t[j..]);
    NoLineTerminatorJoin(t, j);
    NoLineTerminatorJoin(s, i);
  }

  lemma AfterPathFromParts(query: string, fragment: string)
    requires IsQuery(query) && IsFragment(fragment)
    ensures AfterPath(query + fragment)
  {
    var v := query + fragment;
    assert v[..|query|] == query && v[|query|..] == fragment;
  }

  lemma AfterPortFromParts(path: string, rest: string)
    requires IsPath(path) && AfterPath(rest)
    ensures AfterPort(path + rest)
  {
    var u := path + rest;
    assert u[..|path|] == path && u[|path|..] == rest;
  }

  lemma AfterHostFromParts(port: string, rest: string)
    requires IsPort(port) && AfterPort(rest)
    ensures AfterHost(port + rest)
  {
    var t := port + rest;
    assert t[..|port|] == port && t[|port|..] == rest;
  }

  lemma AfterSchemeFromParts(host: string, rest: string)
    requires IsHost(host) && AfterHost(rest)
    ensures AfterScheme(host + rest)
  {
    var t := host + rest;
    assert t[..|host|] == host && t[|host|..] == rest;
  }

  lemma ValidUrlFromSchemeAndRest(scheme: string, rest: string)
    requires IsScheme(scheme) && AfterScheme(rest)
    ensures IsValidUrl(scheme + rest)
  {
    var t := scheme + rest;
    assert t[..|scheme|] == scheme && t[|scheme|..] == rest;
  }

  /** Any scheme, host, port, path, query and fragment, written one after the other, form a valid URL. */
  lemma ValidUrlFromParts(scheme: string, host: string, port: string, path: string, query: string, fragment: string)
    requires IsScheme(scheme) && IsHost(host) && IsPort(port) && IsPath(path) && IsQuery(query) && IsFragment(fragment)
    ensures IsValidUrl(scheme + (host + (port + (path + (query + fragment)))))
  {
    AfterPathFromParts(query, fragment);
    AfterPortFromParts(path, query + fragment);
    AfterHostFromParts(port, path + (query + fragment));
    AfterSchemeFromParts(host, port + (path + (query + fragment)));
    ValidUrlFromSchemeAndRest(scheme, host + (port + (path + (query + fragment))));
  }

  /** Scheme, port, query and fragment are all optional: a host followed by a path is a valid URL. */
  lemma HostThenPathIsValid(host: string, path: string)
    requires IsHost(host) && IsPath(path)
    ensures IsValidUrl(host + path)
  {
    var u := "" + (host + ("" + (path + ("" + ""))));
    assert u == host + path;
    ValidUrlFromParts("", host, "", path, "", "");
  }

  /** A label followed by a point is a run of dotted labels. */
  lemma LabelThenPoint(l: string)
    requires IsLabel(l)
    ensures IsDottedLabels(l + ".")
  {
    var d := l + ".";
    assert d[|l|] == '.' && d[..|l|] == l;
  }

  /** A label and a point in front of dotted labels give dotted labels again. */
  lemma LabelThenDottedLabels(l: string, d: string)
    requires IsLabel(l) && IsDottedLabels(d)
    ensures IsDottedLabels(l + "." + d)
  {
    var e := l + "." + d;
    assert e[|l|] == '.' && e[..|l|] == l && e[|l| + 1..] == d;
  }

  /** Dotted labels followed by a top-level name form a domain name. */
  lemma DomainFromParts(d: string, t: string)
    requires IsDottedLabels(d) && IsTopLevel(t)
    ensures IsDomainName(d + t)
  {
    var h := d + t;
    assert h[..|d|] == d && h[|d|..] == t;
  }

  /** Two paths written one after the other form a path: `(\/[-a-z\d%_.~+]*)*` is closed under concatenation. */
  lemma PathJoin(a: string, b: string)
    requires IsPath(a) && IsPath(b)
    ensures IsPath(a + b)
  {
    var c := a + b;
    forall i | 0 <= i < |c| ensures c[i] == '/' || IsPathChar(c[i]) {
      if i < |a| { assert c[i] == a[i]; } else { assert c[i] == b[i - |a|]; }
    }
  }

  /** Four octets joined by points form an IPv4-shaped host, whatever numbers they spell. */
  lemma DottedQuadIsHost(o1: string, o2: string, o3: string, o4: string)
    requires IsOctet(o1) && IsOctet(o2) && IsOctet(o3) && IsOctet(o4)
    ensures IsHost(o1 + "." + o2 + "." + o3 + "." + o4)
  {
    var h := o1 + "." + o2 + "." + o3 + "." + o4;
    var a := |o1|;
    var b := a + 1 + |o2|;
    var c := b + 1 + |o3|;
    assert h[a] == '.' && h[b] == '.' && h[c] == '.';
    assert h[..a] == o1;
    assert h[a + 1..b] == o2;
    assert h[b + 1..c] == o3;
    assert h[c + 1..] == o4;
  }

  /** The octets of an IPv4-shaped host are not range-checked: `999.1.1.1` is a valid URL. */
  lemma OctetsAreNotRangeChecked()
    ensures IsValidUrl("999.1.1.1")
  {
    assert IsOctet("999") && IsOctet("1");
    DottedQuadIsHost("999", "1", "1", "1");
    assert "999" + "." + "1" + "." + "1" + "." + "1" == "999.1.1.1";
    ValidUrlFromParts("", "999.1.1.1", "", "", "", "");
    assert "" + ("999.1.1.1" + ("" + ("" + ("" + "")))) == "999.1.1.1";
  }
}
