/** The tenant router (proxy.js): classifies a request by its `Host` header and
    either lets it through or rewrites it to the tenant-scoped internal path
    `/user/{subdomain}{pathname}`. It also models the `config.matcher` pattern
    that decides which paths reach the router at all. */
module Proxy {
  import opened Js

  /** The hard-coded root domain. */
  const RootDomain: string := "lvh.me:3000"
  const WwwRoot: string := "www." + RootDomain
  /** What `replace` strips from the host to obtain the subdomain. */
  const TenantSuffix: string := "." + RootDomain

  /** `NextResponse.next()` or `NextResponse.rewrite(...)` of an internal path. */
  datatype Outcome = Next | Rewrite(path: string)

  /** No proper suffix of `.lvh.me:3000` is also a prefix of it, so two
      occurrences of it in a string never overlap. */
  lemma SuffixHasNoBorder()
    ensures |TenantSuffix| == 12
    ensures forall d :: 1 <= d < 12 ==> TenantSuffix[d..] != TenantSuffix[..12 - d]
  {
    forall d | 1 <= d < 12 ensures TenantSuffix[d..] != TenantSuffix[..12 - d] {
      assert TenantSuffix[d..][0] == TenantSuffix[d];
      assert TenantSuffix[..12 - d][0] == '.';
      if d == 4 {
        assert TenantSuffix[d..][1] == 'm' && TenantSuffix[..12 - d][1] == 'l';
      }
    }
  }

  /** `hostname.replace(".lvh.me:3000", "")` */
  function Subdomain(host: string): (sub: string)
    ensures !Contains(host, TenantSuffix) ==> sub == host
    ensures Contains(host, TenantSuffix) ==> |sub| == |host| - 12
  {
    if IndexOf(host, TenantSuffix).Some? then
      var i := IndexOf(host, TenantSuffix).value;
      assert IsAt(host, TenantSuffix, i);
      ReplaceFirst(host, TenantSuffix, "")
    else
      ReplaceFirst(host, TenantSuffix, "")
  }

  /** `proxy(req)`: the host is never null here (the source dereferences it).
      A rewrite happens exactly when the host is neither the root domain, its
      `www.` variant nor the bare suffix, and contains `.lvh.me:3000`; the
      rewrite target starts with `/user/` and ends with the request pathname. */
  function Route(host: string, pathname: string): (r: Outcome)
    ensures r.Rewrite? <==>
              host != RootDomain && host != WwwRoot && host != TenantSuffix &&
              Contains(host, TenantSuffix)
    ensures r.Rewrite? ==> StartsWith(r.path, "/user/") && EndsWith(r.path, pathname)
  {
    if host == RootDomain || host == WwwRoot then Next
    else
      var sub := Subdomain(host);
      assert Contains(host, TenantSuffix) && sub == "" ==> host == TenantSuffix by {
        if Contains(host, TenantSuffix) && sub == "" {
          var i :| IsAt(host, TenantSuffix, i);
        }
      }
      if sub != "" && sub != host then
        var path := "/user/" + sub + pathname;
        assert path[|path| - |pathname|..] == pathname;
        Rewrite(path)
      else Next
  }

  /** In `{a}.lvh.me:3000{b}`, with no suffix inside `a`, no occurrence of
      the suffix starts before the one right after `a`. */
  lemma NoEarlierOccurrence(a: string, b: string, j: nat)
    requires !Contains(a, TenantSuffix)
    requires j < |a|
    ensures !IsAt(a + TenantSuffix + b, TenantSuffix, j)
  {
    var host := a + TenantSuffix + b;
    var n := |a|;
    if j + 12 <= n {
      assert a[j..j + 12] == host[j..j + 12];
      assert !IsAt(a, TenantSuffix, j);
    } else if j + 12 <= |host| {
      SuffixHasNoBorder();
      var d := n - j;
      assert host[j..j + 12][d..] == host[n..j + 12] == TenantSuffix[..12 - d];
    }
  }

  /** In `{a}.lvh.me:3000{b}`, with no suffix inside `a`, the first
      occurrence of the suffix is the one right after `a`. */
  lemma FirstOccurrenceIndex(a: string, b: string)
    requires !Contains(a, TenantSuffix)
    ensures IndexOf(a + TenantSuffix + b, TenantSuffix) == Some(|a|)
  {
    var host := a + TenantSuffix + b;
    assert host[|a|..|a| + 12] == TenantSuffix;
    assert IsAt(host, TenantSuffix, |a|);
    forall j: nat | j < |a| ensures !IsAt(host, TenantSuffix, j) {
      NoEarlierOccurrence(a, b, j);
    }
  }

  /** The strip removes the first occurrence of the suffix, wherever it is. */
  lemma StripFirstOccurrence(a: string, b: string)
    requires IndexOf(a + TenantSuffix + b, TenantSuffix) == Some(|a|)
    ensures Subdomain(a + TenantSuffix + b) == a + b
  {
    var host := a + TenantSuffix + b;
    assert host[..|a|] == a;
    assert host[|a| + 12..] == b;
    assert Subdomain(host) == ReplaceFirst(host, TenantSuffix, "");
  }

  /** A host `{a}.lvh.me:3000{b}` whose first occurrence of the suffix is right
      after `a` rewrites with subdomain `a + b`: the strip removes that first
      occurrence wherever it is, it is not a suffix strip. */
  lemma RewriteFirstOccurrence(a: string, b: string, pathname: string)
    requires !Contains(a, TenantSuffix)
    requires a + b != ""
    requires a + TenantSuffix + b != WwwRoot
    ensures Route(a + TenantSuffix + b, pathname) == Rewrite("/user/" + a + b + pathname)
  {
    var host := a + TenantSuffix + b;
    FirstOccurrenceIndex(a, b);
    StripFirstOccurrence(a, b);
    var sub := a + b;
    assert |host| == |sub| + 12 && |sub| > 0;
    assert host != RootDomain && host != TenantSuffix;
    assert "/user/" + a + b == "/user/" + sub;
  }

  /** A tenant host `{sub}.lvh.me:3000` (sub non-empty, not `www`, and not
      itself containing the suffix) rewrites to `/user/{sub}{pathname}`, with
      the subdomain's case and dots kept. */
  lemma SubdomainRewrite(sub: string, pathname: string)
    requires sub != "" && sub != "www"
    requires !Contains(sub, TenantSuffix)
    ensures Route(sub + TenantSuffix, pathname) == Rewrite("/user/" + sub + pathname)
  {
    var host := sub + TenantSuffix;
    assert host + "" == host && sub + "" == sub;
    assert host[..|sub|] == sub && WwwRoot[..3] == "www";
    RewriteFirstOccurrence(sub, "", pathname);
  }

  /** Hosts that do not contain `.lvh.me:3000` pass through unchanged. */
  lemma UnrelatedHostPassesThrough(host: string, pathname: string)
    requires !Contains(host, TenantSuffix)
    ensures Route(host, pathname) == Next
  {
  }

  lemma ShortHostHasNoSuffix(host: string)
    requires |host| < 12
    ensures !Contains(host, TenantSuffix)
  {
  }

  /** The root domain and its `www.` variant pass through. */
  lemma RootHostsPassThrough(pathname: string)
    ensures Route(RootDomain, pathname) == Next
    ensures Route(WwwRoot, pathname) == Next
  {
  }

  /** The bare suffix strips to the empty subdomain and passes through. */
  lemma BareSuffixPassesThrough(pathname: string)
    ensures Route(".lvh.me:3000", pathname) == Next
  {
  }

  /** An unrelated domain, and a tenant host without the port, pass through. */
  lemma ForeignHostsPassThrough(pathname: string)
    ensures Route("example.com", pathname) == Next
    ensures Route("acme.lvh.me", pathname) == Next
  {
    ShortHostHasNoSuffix("example.com");
    ShortHostHasNoSuffix("acme.lvh.me");
  }

  /** A suffix in the middle of the host is stripped where it first occurs. */
  lemma MiddleSuffixExample(pathname: string)
    ensures Route("a.lvh.me:3000.x", pathname) == Rewrite("/user/a.x" + pathname)
  {
    var a, b := "a", ".x";
    ShortHostHasNoSuffix(a);
    assert "a.lvh.me:3000.x" == a + TenantSuffix + b;
    assert (a + TenantSuffix + b)[0] == 'a' && WwwRoot[0] == 'w';
    RewriteFirstOccurrence(a, b, pathname);
    assert "/user/" + a + b == "/user/a.x";
  }

  /** The subdomain keeps its case. */
  lemma CaseKept(pathname: string)
    ensures Route("Acme.lvh.me:3000", pathname) == Rewrite("/user/Acme" + pathname)
  {
    var sub := "Acme";
    ShortHostHasNoSuffix(sub);
    assert "Acme.lvh.me:3000" == sub + TenantSuffix;
    SubdomainRewrite(sub, pathname);
    assert "/user/" + sub == "/user/Acme";
  }

  /** The subdomain may contain dots. */
  lemma DotsKept(pathname: string)
    ensures Route("a.b.lvh.me:3000", pathname) == Rewrite("/user/a.b" + pathname)
  {
    var sub := "a.b";
    ShortHostHasNoSuffix(sub);
    assert sub != "www";
    assert "a.b.lvh.me:3000" == sub + TenantSuffix;
    SubdomainRewrite(sub, pathname);
    assert "/user/" + sub == "/user/a.b";
  }

  // ---------------------------------------------------------------------------
  // config.matcher: "/((?!api/|_next/static|_next/image|favicon.ico|[\w-]+\.\w+).*)"
  // ---------------------------------------------------------------------------

  /** `\w` */
  predicate IsWordChar(c: char) {
    ('a' <= c <= 'z') || ('A' <= c <= 'Z') || ('0' <= c <= '9') || c == '_'
  }

  /** `[\w-]` */
  predicate IsNameChar(c: char) {
    IsWordChar(c) || c == '-'
  }

  predicate IsLineTerminator(c: char) {
    c == '\n' || c == '\r' || c == '\U{2028}' || c == '\U{2029}'
  }

  /** Length of the longest prefix of `s` made of `[\w-]` characters. */
  function NameRun(s: string): (n: nat)
    ensures n <= |s|
    ensures forall m :: 0 <= m < n ==> IsNameChar(s[m])
    ensures n < |s| ==> !IsNameChar(s[n])
    decreases |s|
  {
    if s == [] || !IsNameChar(s[0]) then 0
    else
      var k := NameRun(s[1..]);
      assert forall m :: 1 <= m < k + 1 ==> s[m] == s[1..][m - 1];
      k + 1
  }

  /** `[\w-]+\.\w+` matches at the start of `s`. Because `.` is not in `[\w-]`,
      the name part can only be the whole leading run. */
  predicate StartsWithDottedName(s: string) {
    var n := NameRun(s);
    n >= 1 && n + 1 < |s| && s[n] == '.' && IsWordChar(s[n + 1])
  }

  /** The negative lookahead of the matcher, tested on the text after the
      leading `/`. The dot of `favicon.ico` is unescaped: any character but a
      line terminator. */
  predicate Excluded(rest: string) {
    || StartsWith(rest, "api/")
    || StartsWith(rest, "_next/static")
    || StartsWith(rest, "_next/image")
    || (|rest| >= 11 && rest[..7] == "favicon" && !IsLineTerminator(rest[7]) && rest[8..11] == "ico")
    || StartsWithDottedName(rest)
  }

  /** The router runs on `path` exactly when this holds. */
  predicate Intercepted(path: string) {
    |path| >= 1 && path[0] == '/' && !Excluded(path[1..])
  }

  /** Every deck link path `/t/{company}/{slug}` reaches the router, whatever
      the company and slug: only the first segment is tested for a dot. */
  lemma DeckPathIntercepted(company: string, slug: string)
    ensures Intercepted("/t/" + company + "/" + slug)
  {
    var path := "/t/" + company + "/" + slug;
    var rest := path[1..];
    assert rest[0] == 't' && rest[1] == '/';
    assert NameRun(rest) == 1 by {
      assert NameRun(rest[1..]) == 0;
    }
  }

  /** `NameRun` stops at the first character outside `[\w-]`. */
  lemma {:induction false} NameRunStops(s: string, k: nat)
    requires k < |s| && !IsNameChar(s[k])
    requires forall m :: 0 <= m < k ==> IsNameChar(s[m])
    ensures NameRun(s) == k
    decreases k
  {
    if k > 0 {
      NameRunStops(s[1..], k - 1);
    }
  }

  /** No API route is intercepted. */
  lemma ApiRouteExcluded(route: string)
    ensures !Intercepted("/api/" + route)
  {
    var path := "/api/" + route;
    assert path[1..][..4] == "api/";
  }

  /** The favicon is not intercepted. */
  lemma FaviconExcluded()
    ensures !Intercepted("/favicon.ico")
  {
    var rest := "favicon.ico";
    assert "/favicon.ico"[1..] == rest;
    assert rest[..7] == "favicon" && rest[8..11] == "ico";
  }

  /** A dotted first segment (a file at the root) is not intercepted. */
  lemma RootFileExcluded()
    ensures !Intercepted("/logo.png")
  {
    NameRunStops("logo.png", 4);
    assert "/logo.png"[1..] == "logo.png";
    assert StartsWithDottedName("logo.png");
  }

  /** The site root is intercepted. */
  lemma RootPathIntercepted()
    ensures Intercepted("/")
  {
  }

  /** A dot in a later segment does not keep a path from the router. */
  lemma NestedFileIntercepted()
    ensures Intercepted("/docs/guide.pdf")
  {
    var rest := "docs/guide.pdf";
    assert "/docs/guide.pdf"[1..] == rest;
    NameRunStops(rest, 4);
    assert !StartsWith(rest, "api/");
    assert !StartsWith(rest, "_next/static");
    assert !StartsWith(rest, "_next/image");
    assert rest[..7] != "favicon";
  }
}
