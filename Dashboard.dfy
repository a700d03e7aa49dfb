/** The dashboard page (app/dashboard/page.js): the per-deck link, title and
    subtitle, and the page state that `fetchDecks` and `handleArchive` update.
    The link builder and the tenant router are written separately against the
    same hard-coded domain; `LinkRoundTrip` shows that they agree. */
module Dashboard {
  import opened Js
  import opened Records
  import Seqs
  import Proxy
  import Actions

  /** The domain the link builder appends to the handle. */
  const LinkDomain: string := ".lvh.me:3000"

  // ---------------------------------------------------------------------------
  // s.replace(/\s+/g, '-')
  // ---------------------------------------------------------------------------

  /** Length of the whitespace run at the start of `s`. */
  function SpaceRun(s: string): (n: nat)
    ensures n <= |s|
    ensures forall m :: 0 <= m < n ==> IsSpace(s[m])
    ensures n < |s| ==> !IsSpace(s[n])
    decreases |s|
  {
    if s == [] || !IsSpace(s[0]) then 0
    else
      var k := SpaceRun(s[1..]);
      assert forall m :: 1 <= m < k + 1 ==> s[m] == s[1..][m - 1];
      k + 1
  }

  /** The characterisation of `SpaceRun` determines it. */
  lemma SpaceRunUnique(s: string, n: nat)
    requires n <= |s|
    requires forall m :: 0 <= m < n ==> IsSpace(s[m])
    requires n < |s| ==> !IsSpace(s[n])
    ensures SpaceRun(s) == n
  {
    var k := SpaceRun(s);
    assert k < |s| ==> !IsSpace(s[k]);
    assert n < |s| ==> !IsSpace(s[n]);
  }

  /** `s.replace(/\s+/g, '-')`: every maximal run of whitespace becomes one `-`. */
  function Dashify(s: string): (r: string)
    ensures HasNoSpace(r)
    ensures |r| <= |s|
    decreases |s|
  {
    if s == [] then []
    else if !IsSpace(s[0]) then
      var rest := Dashify(s[1..]);
      assert forall k :: 1 <= k < |rest| + 1 ==> ([s[0]] + rest)[k] == rest[k - 1];
      [s[0]] + rest
    else
      var rest := Dashify(s[SpaceRun(s)..]);
      assert forall k :: 1 <= k < |rest| + 1 ==> ("-" + rest)[k] == rest[k - 1];
      "-" + rest
  }

  /** Strings without whitespace are left alone. */
  lemma {:induction false} DashifyIdentity(s: string)
    requires HasNoSpace(s)
    ensures Dashify(s) == s
    decreases |s|
  {
    if s != [] {
      assert HasNoSpace(s[1..]) by {
        forall k | 0 <= k < |s[1..]| ensures !IsSpace(s[1..][k]) {
          assert s[1..][k] == s[k + 1];
        }
      }
      DashifyIdentity(s[1..]);
    }
  }

  /** Applying the replacement twice is the same as applying it once. */
  lemma DashifyIdempotent(s: string)
    ensures Dashify(Dashify(s)) == Dashify(s)
  {
    DashifyIdentity(Dashify(s));
  }

  /** A non-empty run of whitespace alone becomes a single `-`. */
  lemma {:induction false} DashifyRun(w: string)
    requires w != [] && forall k :: 0 <= k < |w| ==> IsSpace(w[k])
    ensures Dashify(w) == "-"
  {
    SpaceRunUnique(w, |w|);
    assert w[|w|..] == [];
  }

  /** A character outside `\s` is copied. */
  lemma DashifyKeep(c: char, s: string)
    requires !IsSpace(c)
    ensures Dashify([c] + s) == [c] + Dashify(s)
  {
    assert ([c] + s)[1..] == s;
  }

  /** A non-empty whitespace run followed by a non-space becomes one `-`. */
  lemma DashifySpaceHead(w: string, s: string)
    requires w != [] && forall k :: 0 <= k < |w| ==> IsSpace(w[k])
    requires s == [] || !IsSpace(s[0])
    ensures Dashify(w + s) == "-" + Dashify(s)
  {
    SpaceRunUnique(w + s, |w|);
    assert (w + s)[|w|..] == s;
  }

  lemma PrependAssoc(h: string, x: string, y: string, z: string)
    requires z == x + y
    ensures h + z == (h + x) + y
  {
  }

  /** The step of `DashifyConcat` for a string starting outside `\s`. */
  lemma ConcatKeepStep(c: char, t: string, b: string)
    requires !IsSpace(c)
    requires Dashify(t + b) == Dashify(t) + Dashify(b)
    ensures Dashify([c] + t + b) == Dashify([c] + t) + Dashify(b)
  {
    assert [c] + t + b == [c] + (t + b);
    DashifyKeep(c, t + b);
    DashifyKeep(c, t);
    PrependAssoc([c], Dashify(t), Dashify(b), Dashify(t + b));
  }

  /** A whitespace run of length `n` followed by a non-space becomes one `-`. */
  lemma DashifySpaceRun(s: string, n: nat)
    requires 0 < n < |s| && forall k :: 0 <= k < n ==> IsSpace(s[k])
    requires !IsSpace(s[n])
    ensures Dashify(s) == "-" + Dashify(s[n..])
  {
    SpaceRunUnique(s, n);
  }

  /** The step of `DashifyConcat` for a string that is whitespace up to `n`. */
  lemma ConcatSpaceStep(a: string, b: string, n: nat)
    requires 0 < n < |a| && forall k :: 0 <= k < n ==> IsSpace(a[k])
    requires !IsSpace(a[n])
    requires Dashify(a[n..] + b) == Dashify(a[n..]) + Dashify(b)
    ensures Dashify(a + b) == Dashify(a) + Dashify(b)
  {
    var ab, t := a + b, a[n..];
    assert forall k :: 0 <= k <= n ==> ab[k] == a[k];
    assert ab[n..] == t + b;
    DashifySpaceRun(ab, n);
    DashifySpaceRun(a, n);
    PrependAssoc("-", Dashify(t), Dashify(b), Dashify(t + b));
  }

  /** `DashifyConcat` when `a` is all whitespace. */
  lemma ConcatAllSpace(a: string, b: string)
    requires a != [] && forall k :: 0 <= k < |a| ==> IsSpace(a[k])
    requires b == [] || !IsSpace(b[0])
    ensures Dashify(a + b) == Dashify(a) + Dashify(b)
  {
    DashifySpaceHead(a, b);
    DashifyRun(a);
  }

  /** The replacement works piecewise on any split that does not cut a
      whitespace run in two. */
  lemma {:induction false} DashifyConcat(a: string, b: string)
    requires a == [] || b == [] || !IsSpace(a[|a| - 1]) || !IsSpace(b[0])
    ensures Dashify(a + b) == Dashify(a) + Dashify(b)
    decreases |a|
  {
    if a == [] {
      assert a + b == b;
    } else if b == [] {
      assert a + b == a;
    } else if !IsSpace(a[0]) {
      assert a[1..] == [] || a[1..][|a[1..]| - 1] == a[|a| - 1];
      DashifyConcat(a[1..], b);
      assert a == [a[0]] + a[1..];
      ConcatKeepStep(a[0], a[1..], b);
    } else {
      var n := SpaceRun(a);
      if n == |a| {
        ConcatAllSpace(a, b);
      } else {
        assert a[n..][0] == a[n];
        assert a[n..][|a[n..]| - 1] == a[|a| - 1];
        DashifyConcat(a[n..], b);
        ConcatSpaceStep(a, b, n);
      }
    }
  }

  // ---------------------------------------------------------------------------
  // Labels and the link of a deck card
  // ---------------------------------------------------------------------------

  /** `${profile?.handle}`: "undefined" before a profile is loaded, "null" for a
      profile without a handle. */
  function HandleText(profile: Option<ProfileRow>): (t: string)
    ensures profile.Some? && profile.value.handle.Some? ==> t == profile.value.handle.value
    ensures profile.Some? && profile.value.handle.None? ==> t == "null"
    ensures profile.None? ==> t == "undefined"
  {
    match profile
    case None => "undefined"
    case Some(p) => Interp(p.handle)
  }

  /** The host of every link on the page. */
  function LinkHost(handleText: string): string {
    handleText + LinkDomain
  }

  /** `/t/{company}/{slug}` with whitespace runs turned into `-`. */
  function LinkPath(company: string, slug: string): (path: string)
    ensures StartsWith(path, "/t/")
    ensures HasNoSpace(path)
  {
    var c, s := Dashify(company), Dashify(slug);
    var path := "/t/" + c + "/" + s;
    forall k | 0 <= k < |path| ensures !IsSpace(path[k]) {
      if 3 <= k < 3 + |c| {
        assert path[k] == c[k - 3];
      } else if 4 + |c| <= k {
        assert path[k] == s[k - 4 - |c|];
      }
    }
    path
  }

  /** The `href` of a deck card. A public deck links to the bare subdomain; any
      other deck to `/t/{company}/{slug}`, which throws (`Err`) when company or
      slug is null. */
  function DeckHref(handleText: string, deck: DeckRow): (r: Result<string>)
    ensures r.Err? <==> !deck.isPublic && (deck.company.None? || deck.slug.None?)
    ensures deck.isPublic ==> r == Ok("http://" + LinkHost(handleText))
    ensures r.Ok? && !deck.isPublic ==>
              r.value == "http://" + LinkHost(handleText) + LinkPath(deck.company.value, deck.slug.value)
  {
    if deck.isPublic then Ok("http://" + LinkHost(handleText))
    else if deck.company.None? || deck.slug.None? then Err("TypeError: cannot read properties of null")
    else Ok("http://" + LinkHost(handleText) + LinkPath(deck.company.value, deck.slug.value))
  }

  /** The card title; `None` renders nothing (a null company). */
  function Title(deck: DeckRow): (t: Option<string>)
    ensures t == Some("Main Deck") <==> deck.isPublic || deck.company == Some("Main Deck")
    ensures !deck.isPublic ==> t == deck.company
  {
    if deck.isPublic then Some("Main Deck") else deck.company
  }

  /** The card subtitle. */
  function Subtitle(deck: DeckRow): (t: string)
    ensures t == "Root Subdomain" <==> deck.isPublic
    ensures !deck.isPublic ==> StartsWith(t, "Slug: ") && t[6..] == Interp(deck.slug)
  {
    if deck.isPublic then "Root Subdomain"
    else
      var t := "Slug: " + Interp(deck.slug);
      assert t[6..] == Interp(deck.slug);
      assert t[0] == 'S';
      t
  }

  /** A character the URL parser keeps unchanged in a host: a lower-case
      ASCII letter, a digit, `-` or `.` (upper case is lowered, other
      characters are encoded, rejected or end the host). */
  predicate HostChar(c: char) {
    'a' <= c <= 'z' || '0' <= c <= '9' || c == '-' || c == '.'
  }

  /** A handle that the browser sends back as the same host label text. */
  predicate HostSafe(handle: string) {
    forall i :: 0 <= i < |handle| ==> HostChar(handle[i])
  }

  /** A character the URL parser keeps unchanged inside one path segment:
      printable ASCII other than the characters it percent-encodes (`"`, `<`,
      `>`, `` ` ``, `{`, `}`), those that end the path (`?`, `#`), those that
      separate segments (`/`, `\`) and `%`. */
  predicate PathChar(c: char) {
    '!' <= c <= '~' &&
    c != '"' && c != '<' && c != '>' && c != '`' && c != '{' && c != '}' &&
    c != '?' && c != '#' && c != '/' && c != '\\' && c != '%'
  }

  /** A path segment the URL parser neither encodes, cuts nor normalises away. */
  predicate SegmentKept(segment: string) {
    (forall i :: 0 <= i < |segment| ==> PathChar(segment[i])) && segment != "." && segment != ".."
  }

  /** A host-safe handle never contains the tenant domain, whose `:` is not a
      host character. */
  lemma HostSafeHasNoSuffix(handle: string)
    requires HostSafe(handle)
    ensures !Contains(handle, Proxy.TenantSuffix)
  {
    forall i: nat ensures !IsAt(handle, Proxy.TenantSuffix, i) {
      if i + 12 <= |handle| {
        assert HostChar(handle[i + 7]);
        assert handle[i..i + 12][7] == handle[i + 7];
        assert Proxy.TenantSuffix[7] == ':';
      }
    }
  }

  /** Round trip between the link builder and the router: for a non-empty
      handle other than `www` made of host characters, and a company and slug
      whose link segments the URL parser keeps as written, a non-public
      deck's link is `http://{host}{path}`; the request carries that host and
      path, the matcher lets `path` through, and the router rewrites it to
      `/user/{handle}{path}`. */
  lemma LinkRoundTrip(handle: string, deck: DeckRow)
    requires handle != "" && handle != "www" && HostSafe(handle)
    requires !deck.isPublic && deck.company.Some? && deck.slug.Some?
    requires SegmentKept(Dashify(deck.company.value)) && SegmentKept(Dashify(deck.slug.value))
    ensures var path := LinkPath(deck.company.value, deck.slug.value);
            && DeckHref(handle, deck) == Ok("http://" + LinkHost(handle) + path)
            && Proxy.Intercepted(path)
            && Proxy.Route(LinkHost(handle), path) == Proxy.Rewrite("/user/" + handle + path)
  {
    var path := LinkPath(deck.company.value, deck.slug.value);
    HostSafeHasNoSuffix(handle);
    Proxy.DeckPathIntercepted(Dashify(deck.company.value), Dashify(deck.slug.value));
    assert LinkHost(handle) == handle + Proxy.TenantSuffix;
    Proxy.SubdomainRewrite(handle, path);
  }

  /** The public deck's link has no path; the browser requests `/`, which the
      router rewrites to the tenant root `/user/{handle}/`. */
  lemma PublicLinkRoundTrip(handle: string, deck: DeckRow)
    requires handle != "" && handle != "www" && HostSafe(handle)
    requires deck.isPublic
    ensures DeckHref(handle, deck) == Ok("http://" + LinkHost(handle))
    ensures Proxy.Intercepted("/")
    ensures Proxy.Route(LinkHost(handle), "/") == Proxy.Rewrite("/user/" + handle + "/")
  {
    HostSafeHasNoSuffix(handle);
    assert LinkHost(handle) == handle + Proxy.TenantSuffix;
    Proxy.SubdomainRewrite(handle, "/");
    Proxy.RootPathIntercepted();
  }

  // ---------------------------------------------------------------------------
  // Page state: fetchDecks and handleArchive
  // ---------------------------------------------------------------------------

  /** `.eq("user_id", userId).is("deleted_at", null)` */
  predicate IsActiveOf(deck: DeckRow, userId: string) {
    deck.userId == userId && deck.deletedAt.None?
  }

  function CreatedAt(deck: DeckRow): int {
    deck.createdAt
  }

  /** The rows of `table` the decks query selects, in table order. */
  function ActiveDecks(table: seq<DeckRow>, userId: string): seq<DeckRow> {
    Seqs.Filter(table, (d: DeckRow) => IsActiveOf(d, userId))
  }

  /** What the decks query may return: the user's active decks, newest first. */
  ghost predicate Listed(decks: seq<DeckRow>, table: seq<DeckRow>, userId: string) {
    Seqs.SortedDesc(decks, CreatedAt) && multiset(decks) == multiset(ActiveDecks(table, userId))
  }

  /** A listing holds exactly the user's rows with no `deleted_at`. */
  lemma ListedExactlyActive(decks: seq<DeckRow>, table: seq<DeckRow>, userId: string, d: DeckRow)
    requires Listed(decks, table, userId)
    ensures d in decks <==> d in table && IsActiveOf(d, userId)
  {
    var act := ActiveDecks(table, userId);
    assert d in decks <==> d in multiset(decks);
    assert d in act <==> d in multiset(act);
    if d in table && IsActiveOf(d, userId) {
      var i :| 0 <= i < |table| && table[i] == d;
      assert d in act;
    }
    if d in act {
      var i :| 0 <= i < |act| && act[i] == d;
    }
  }

  /** Once a deck is archived, a fresh listing no longer holds it. */
  lemma ArchivedNotListed(decks: seq<DeckRow>, table: seq<DeckRow>, id: string, userId: string, now: string)
    requires Listed(decks, Actions.SoftDelete(table, id, userId, now), userId)
    ensures forall k :: 0 <= k < |decks| ==> decks[k].id != id
  {
    var rows := Actions.SoftDelete(table, id, userId, now);
    forall k | 0 <= k < |decks| ensures decks[k].id != id {
      var d := decks[k];
      ListedExactlyActive(decks, rows, userId, d);
      var i :| 0 <= i < |rows| && rows[i] == d;
    }
  }

  /** A listing holds every active deck of the user. */
  lemma ActiveListed(decks: seq<DeckRow>, table: seq<DeckRow>, userId: string)
    requires Listed(decks, table, userId)
    ensures forall d :: d in table && IsActiveOf(d, userId) ==> d in decks
  {
    forall d | d in table && IsActiveOf(d, userId) ensures d in decks {
      ListedExactlyActive(decks, table, userId, d);
    }
  }

  class DashboardPage {
    var decks: seq<DeckRow>
    var profile: Option<ProfileRow>
    var loading: bool
    var toasts: seq<Toast>

    constructor()
      ensures decks == [] && profile.None? && loading && toasts == []
    {
      decks := [];
      profile := None;
      loading := true;
      toasts := [];
    }

    /** `fetchDecks()`: with a user, load the profile (null when it has no row)
        and the user's active decks newest first (an empty list when the query
        returns no data); in every case stop loading. */
    method FetchDecks(user: Option<User>, profiles: map<string, ProfileRow>, table: seq<DeckRow>,
                      listFails: bool)
      modifies this`decks, this`profile, this`loading
      ensures !loading
      ensures user.None? ==> decks == old(decks) && profile == old(profile)
      ensures user.Some? ==>
                profile == if user.value.id in profiles then Some(profiles[user.value.id]) else None
      ensures user.Some? && listFails ==> decks == []
      ensures user.Some? && !listFails ==> Listed(decks, table, user.value.id)
    {
      if user.Some? {
        var uid := user.value.id;
        profile := if uid in profiles then Some(profiles[uid]) else None;
        if listFails {
          decks := [];
        } else {
          decks := Seqs.SortDesc(ActiveDecks(table, uid), CreatedAt);
        }
      }
      loading := false;
    }

    /** `handleArchive(id)`: `deleteDeck`, then the "Deck archived" toast
        whatever the update did, then a re-fetch. Once the update succeeds the
        archived deck is no longer listed; when it fails, every active deck of
        the user, the archived one included, is still listed after the toast. */
    method HandleArchive(store: Actions.DeckStore, user: Option<User>, id: string, now: string,
                         updateFails: bool, profiles: map<string, ProfileRow>, listFails: bool)
      modifies this, store`rows
      ensures user.None? || updateFails ==> store.rows == old(store.rows)
      ensures user.Some? && !updateFails ==> store.rows == Actions.SoftDelete(old(store.rows), id, user.value.id, now)
      ensures toasts == old(toasts) + [Success(JStr("Deck archived"))]
      ensures !loading
      ensures user.None? ==> decks == old(decks) && profile == old(profile)
      ensures user.Some? ==>
                profile == if user.value.id in profiles then Some(profiles[user.value.id]) else None
      ensures user.Some? && listFails ==> decks == []
      ensures user.Some? && !listFails ==> Listed(decks, store.rows, user.value.id)
      ensures user.Some? && !updateFails ==> forall k :: 0 <= k < |decks| ==> decks[k].id != id
      ensures user.Some? && updateFails && !listFails ==>
                forall d :: d in old(store.rows) && IsActiveOf(d, user.value.id) ==> d in decks
    {
      store.DeleteDeck(user, id, now, updateFails);
      toasts := toasts + [Success(JStr("Deck archived"))];
      FetchDecks(user, profiles, store.rows, listFails);
      if user.Some? && !listFails {
        if !updateFails {
          ArchivedNotListed(decks, old(store.rows), id, user.value.id, now);
        } else {
          ActiveListed(decks, store.rows, user.value.id);
        }
      }
    }
  }
}
