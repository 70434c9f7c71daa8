/** Path-scoped session tokens (session.rs): a bounded store of tokens per origin,
looked up by the most specific scope of a request path. */
module Sessions {
  import opened Wrappers
  import opened Text

  type Origin = nat

  const MAX_SESSIONS_PER_SITE: nat := 8
  const MAX_TOTAL_SESSIONS: nat := 256
  const MAX_TOKEN_LEN: nat := 4096
  const MAX_SCOPE_LEN: nat := 1024

  datatype SessionToken = SessionToken(token: string, scope: string, expires: Option<nat>)

  datatype Directive =
    | Set(token: string, scope: string, expires: Option<nat>)
    | Clear(scope: string)

  type Site = seq<SessionToken>

  datatype Bucket = Bucket(origin: Origin, tokens: Site)

  type Sites = seq<Bucket>

  // ---- scopes ----

  predicate StartsWith(s: string, prefix: string) {
    |prefix| <= |s| && s[..|prefix|] == prefix
  }

  predicate ScopeMatches(scope: string, path: string) {
    if scope == "/" || path == scope then true
    else if !StartsWith(path, scope) then false
    else
      var rest := path[|scope|..];
      (scope != "" && scope[|scope| - 1] == '/') || (rest != "" && rest[0] == '/')
  }

  /** Path-match of section 5.1.4 of RFC 6265: identical, or a prefix that ends
      with a slash or is followed by one. */
  ghost predicate PathMatch(cookiePath: string, requestPath: string) {
    || requestPath == cookiePath
    || (StartsWith(requestPath, cookiePath) && cookiePath != "" && cookiePath[|cookiePath| - 1] == '/')
    || (StartsWith(requestPath, cookiePath) && |cookiePath| < |requestPath| && requestPath[|cookiePath|] == '/')
  }

  /** The rule is path-match, except that the root scope also matches a path that is not absolute. */
  lemma ScopeMatchesIsPathMatch(scope: string, path: string)
    ensures ScopeMatches(scope, path) <==>
            PathMatch(scope, path) || (scope == "/" && (path == "" || path[0] != '/'))
  {
    if scope == "/" && path != "" {
      assert StartsWith(path, scope) <==> path[0] == '/';
    }
    if StartsWith(path, scope) {
      var rest := path[|scope|..];
      assert rest != "" ==> rest[0] == path[|scope|];
      if rest == "" {
        assert path == scope;
      }
    }
  }

  /** A scope matches the whole of a segment, never a part of one. */
  lemma ScopesEndOnSegments(scope: string, path: string)
    requires ScopeMatches(scope, path) && scope != "/" && scope != path
    ensures |scope| < |path| && path == scope + path[|scope|..]
    ensures path[|scope|] == '/' || (scope != "" && scope[|scope| - 1] == '/')
  {
    assert path == path[..|scope|] + path[|scope|..];
  }

  lemma {:induction false} PrefixesOrdered(path: string, a: nat, b: nat)
    requires a < b <= |path|
    ensures ByteLen(path[..a]) < ByteLen(path[..b])
  {
    assert path[..b] == path[..a] + path[a..b];
    ByteLenAppend(path[..a], path[a..b]);
    ByteLenCovers(path[a..b]);
  }

  /** Two scopes of one length both match only when one is the root and the other
      is the single first character of a path that is not absolute. */
  ghost predicate RootTie(scope: string, other: string, path: string) {
    && scope == "/" && path != "" && path[0] != '/' && other == [path[0]]
    && Width(path[0]) == 1 && (|path| == 1 || path[1] == '/')
  }

  lemma MatchesOfOneLength(scope: string, other: string, path: string)
    requires scope != other
    ensures ScopeMatches(scope, path) && ScopeMatches(other, path) && ByteLen(scope) == ByteLen(other)
            <==> RootTie(scope, other, path) || RootTie(other, scope, path)
  {
    RootTieMatches(scope, other, path);
    RootTieMatches(other, scope, path);
    if ScopeMatches(scope, path) && ScopeMatches(other, path) && ByteLen(scope) == ByteLen(other) {
      MatchIsPrefix(scope, path);
      MatchIsPrefix(other, path);
      if StartsWith(path, scope) && StartsWith(path, other) {
        if |scope| < |other| {
          PrefixesOrdered(path, |scope|, |other|);
        } else if |other| < |scope| {
          PrefixesOrdered(path, |other|, |scope|);
        }
        assert false;
      } else if StartsWith(path, other) {
        assert scope == "/";
        RootTieFound(other, path);
      } else {
        assert other == "/";
        RootTieFound(scope, path);
      }
    }
  }

  lemma MatchIsPrefix(scope: string, path: string)
    requires ScopeMatches(scope, path)
    ensures StartsWith(path, scope) || scope == "/"
  {
  }

  lemma RootTieFound(other: string, path: string)
    requires other != "/" && !StartsWith(path, "/") && StartsWith(path, other) && ScopeMatches(other, path)
    requires ByteLen(other) == ByteLen("/")
    ensures RootTie("/", other, path)
  {
    ByteLenAscii("/");
    ByteLenCovers(other);
    if other == "" {
      assert false;
    }
    assert other[1..] == "";
    assert path != "" ==> path[..1] == [path[0]];
    assert path[..1] == other;
    if |path| > 1 {
      assert path[1..][0] == path[1];
    }
  }

  lemma RootTieMatches(scope: string, other: string, path: string)
    ensures RootTie(scope, other, path) ==>
              ScopeMatches(scope, path) && ScopeMatches(other, path) && ByteLen(scope) == ByteLen(other)
  {
    if RootTie(scope, other, path) {
      ByteLenAscii(scope);
      ByteLenAscii(other);
      assert path[..1] == other;
      if |path| > 1 {
        assert path[1..][0] == '/';
      } else {
        assert path == other;
      }
    }
  }

  // ---- lookup ----

  predicate Eligible(t: SessionToken, path: string, now: nat) {
    ScopeMatches(t.scope, path) && (t.expires.None? || t.expires.value > now)
  }

  /** `r` is an eligible token with a scope of the greatest length, or there is no eligible token. */
  ghost predicate IsMostSpecific(site: Site, path: string, now: nat, r: Option<SessionToken>) {
    match r
    case None => forall i :: 0 <= i < |site| ==> !Eligible(site[i], path, now)
    case Some(t) =>
      && t in site && Eligible(t, path, now)
      && forall i :: 0 <= i < |site| && Eligible(site[i], path, now) ==> ByteLen(site[i].scope) <= ByteLen(t.scope)
  }

  method ByteLength(s: string) returns (n: nat)
    ensures n == ByteLen(s)
  {
    n := 0;
    for i := 0 to |s|
      invariant n == ByteLen(s[..i])
    {
      assert s[..i + 1] == s[..i] + [s[i]];
      ByteLenAppend(s[..i], [s[i]]);
      n := n + Width(s[i]);
    }
    assert s[..|s|] == s;
  }

  /** The later of two eligible tokens with scopes of one length wins. */
  method FindInSite(site: Site, path: string, now: nat) returns (r: Option<SessionToken>)
    ensures IsMostSpecific(site, path, now, r)
  {
    r := None;
    var best := 0;
    for i := 0 to |site|
      invariant IsMostSpecific(site[..i], path, now, r)
      invariant r.Some? ==> best == ByteLen(r.value.scope)
    {
      assert site[..i + 1] == site[..i] + [site[i]];
      if ScopeMatches(site[i].scope, path) && (site[i].expires.None? || site[i].expires.value > now) {
        var length := ByteLength(site[i].scope);
        if r.None? || length >= best {
          r, best := Some(site[i]), length;
        }
      }
    }
    assert site[..|site|] == site;
  }

  ghost predicate DistinctScopes(site: Site) {
    forall i, j :: 0 <= i < j < |site| ==> site[i].scope != site[j].scope
  }

  predicate Absolute(path: string) {
    path != "" && path[0] == '/'
  }

  /** Every scope of the site starts with a slash, as every parsed scope does. */
  ghost predicate AbsoluteScopes(site: Site) {
    forall i :: 0 <= i < |site| ==> Absolute(site[i].scope)
  }

  /** Absolute scopes never tie, whatever the path. */
  lemma AbsoluteScopesDiffer(scope: string, other: string, path: string)
    requires Absolute(scope) && Absolute(other) && scope != other
    ensures !(ScopeMatches(scope, path) && ScopeMatches(other, path) && ByteLen(scope) == ByteLen(other))
  {
    MatchesOfOneLength(scope, other, path);
  }

  /** The tokens of a site determine the answer for every path, whatever order they are stored in. */
  lemma LookupIgnoresOrder(site: Site, other: Site, path: string, now: nat,
                           r: Option<SessionToken>, q: Option<SessionToken>)
    requires DistinctScopes(site) && AbsoluteScopes(site) && forall t :: t in site <==> t in other
    requires IsMostSpecific(site, path, now, r) && IsMostSpecific(other, path, now, q)
    ensures r == q
  {
    if r.Some? && q.Some? {
      assert r.value in site && q.value in site;
      if r.value.scope != q.value.scope {
        AbsoluteScopesDiffer(r.value.scope, q.value.scope, path);
      }
    }
    assert r.Some? ==> r.value in other;
    assert q.Some? ==> q.value in site;
  }

  /** The answer is strictly more specific than every other eligible token, for every path. */
  lemma MostSpecificIsUnique(site: Site, path: string, now: nat, t: SessionToken, u: SessionToken)
    requires DistinctScopes(site) && AbsoluteScopes(site)
    requires IsMostSpecific(site, path, now, Some(t)) && u in site && Eligible(u, path, now) && u != t
    ensures ByteLen(u.scope) < ByteLen(t.scope)
  {
    if u.scope != t.scope {
      AbsoluteScopesDiffer(u.scope, t.scope, path);
    }
  }

  // ---- the store as a value ----

  function ScopeAt(site: Site, scope: string): (i: nat)
    ensures i <= |site|
    ensures i < |site| ==> site[i].scope == scope
    ensures forall j :: 0 <= j < i ==> site[j].scope != scope
  {
    if site == [] || site[0].scope == scope then 0
    else
      var k := ScopeAt(site[1..], scope);
      assert forall j :: 0 < j < 1 + k ==> site[j] == site[1..][j - 1];
      1 + k
  }

  function SiteAt(sites: Sites, origin: Origin): (i: nat)
    ensures i <= |sites|
    ensures i < |sites| ==> sites[i].origin == origin
    ensures forall j :: 0 <= j < i ==> sites[j].origin != origin
  {
    if sites == [] || sites[0].origin == origin then 0
    else
      var k := SiteAt(sites[1..], origin);
      assert forall j :: 0 < j < 1 + k ==> sites[j] == sites[1..][j - 1];
      1 + k
  }

  /** Replace the token of the same scope, or add it and drop the oldest of a full site. */
  function WithToken(site: Site, t: SessionToken): Site {
    var i := ScopeAt(site, t.scope);
    if i < |site| then site[i := t]
    else (if |site| >= MAX_SESSIONS_PER_SITE then site[1..] else site) + [t]
  }

  function WithoutScope(site: Site, scope: string): Site {
    if site == [] then []
    else if site[0].scope == scope then WithoutScope(site[1..], scope)
    else [site[0]] + WithoutScope(site[1..], scope)
  }

  function Total(sites: Sites): nat {
    if sites == [] then 0 else |sites[0].tokens| + Total(sites[1..])
  }

  /** A new token finds no room: the store is full and nothing of its site makes way. */
  predicate Refuses(sites: Sites, origin: Origin, scope: string) {
    var i := SiteAt(sites, origin);
    && Total(sites) >= MAX_TOTAL_SESSIONS
    && (i < |sites| ==> ScopeAt(sites[i].tokens, scope) == |sites[i].tokens| < MAX_SESSIONS_PER_SITE)
  }

  function WithSession(sites: Sites, origin: Origin, t: SessionToken): Sites {
    var i := SiteAt(sites, origin);
    if i < |sites| then sites[i := Bucket(origin, WithToken(sites[i].tokens, t))]
    else sites + [Bucket(origin, WithToken([], t))]
  }

  function WithoutSession(sites: Sites, origin: Origin, scope: string): Sites {
    var i := SiteAt(sites, origin);
    if i == |sites| then sites
    else
      var kept := WithoutScope(sites[i].tokens, scope);
      if kept == [] then sites[..i] + sites[i + 1..] else sites[i := Bucket(origin, kept)]
  }

  ghost predicate SiteOk(site: Site) {
    1 <= |site| <= MAX_SESSIONS_PER_SITE && DistinctScopes(site)
  }

  ghost predicate DistinctOrigins(sites: Sites) {
    forall i, j :: 0 <= i < j < |sites| ==> sites[i].origin != sites[j].origin
  }

  ghost predicate StoreOk(sites: Sites) {
    && DistinctOrigins(sites) && Total(sites) <= MAX_TOTAL_SESSIONS
    && forall i :: 0 <= i < |sites| ==> SiteOk(sites[i].tokens)
  }

  lemma WithTokenOk(site: Site, t: SessionToken)
    requires |site| <= MAX_SESSIONS_PER_SITE && DistinctScopes(site)
    ensures SiteOk(WithToken(site, t))
    ensures |WithToken(site, t)| == |site|
            + (if ScopeAt(site, t.scope) == |site| < MAX_SESSIONS_PER_SITE then 1 else 0)
  {
  }

  lemma {:induction false} WithoutScopeOk(site: Site, scope: string)
    requires DistinctScopes(site)
    ensures DistinctScopes(WithoutScope(site, scope)) && |WithoutScope(site, scope)| <= |site|
  {
    if site != [] {
      var rest := site[1..];
      assert DistinctScopes(rest);
      WithoutScopeOk(rest, scope);
      var kept := WithoutScope(rest, scope);
      forall i | 0 <= i < |kept|
        ensures kept[i].scope != site[0].scope
      {
        WithoutScopeHolds(rest, scope, kept[i]);
        var k :| 0 <= k < |rest| && rest[k] == kept[i];
        assert rest[k] == site[k + 1];
      }
    }
  }

  lemma {:induction false} TotalUpdate(sites: Sites, i: nat, b: Bucket)
    requires i < |sites|
    ensures Total(sites[i := b]) == Total(sites) - |sites[i].tokens| + |b.tokens|
    ensures Total(sites[..i] + sites[i + 1..]) == Total(sites) - |sites[i].tokens|
  {
    if i == 0 {
      assert sites[0 := b][1..] == sites[1..];
      assert sites[..0] + sites[1..] == sites[1..];
    } else {
      TotalUpdate(sites[1..], i - 1, b);
      assert sites[i := b][1..] == sites[1..][i - 1 := b];
      assert (sites[..i] + sites[i + 1..])[1..] == sites[1..][..i - 1] + sites[1..][i..];
    }
  }

  lemma {:induction false} TotalAppend(sites: Sites, b: Bucket)
    ensures Total(sites + [b]) == Total(sites) + |b.tokens|
  {
    if sites != [] {
      TotalAppend(sites[1..], b);
      assert (sites + [b])[1..] == sites[1..] + [b];
    }
  }

  lemma WithSessionOk(sites: Sites, origin: Origin, t: SessionToken)
    requires StoreOk(sites) && !Refuses(sites, origin, t.scope)
    ensures StoreOk(WithSession(sites, origin, t))
  {
    var i := SiteAt(sites, origin);
    if i < |sites| {
      WithTokenOk(sites[i].tokens, t);
      TotalUpdate(sites, i, Bucket(origin, WithToken(sites[i].tokens, t)));
    } else {
      WithTokenOk([], t);
      TotalAppend(sites, Bucket(origin, WithToken([], t)));
    }
  }

  lemma DropBucketOk(sites: Sites, i: nat)
    requires StoreOk(sites) && i < |sites|
    ensures StoreOk(sites[..i] + sites[i + 1..])
  {
    var after := sites[..i] + sites[i + 1..];
    TotalUpdate(sites, i, sites[i]);
    assert forall j :: 0 <= j < |after| ==> after[j] == sites[if j < i then j else j + 1];
  }

  lemma ShrinkBucketOk(sites: Sites, i: nat, tokens: Site)
    requires StoreOk(sites) && i < |sites| && SiteOk(tokens) && |tokens| <= |sites[i].tokens|
    ensures StoreOk(sites[i := Bucket(sites[i].origin, tokens)])
  {
    TotalUpdate(sites, i, Bucket(sites[i].origin, tokens));
  }

  lemma WithoutSessionOk(sites: Sites, origin: Origin, scope: string)
    requires StoreOk(sites)
    ensures StoreOk(WithoutSession(sites, origin, scope))
  {
    var i := SiteAt(sites, origin);
    if i < |sites| {
      var tokens := sites[i].tokens;
      assert SiteOk(tokens);
      WithoutScopeOk(tokens, scope);
      if WithoutScope(tokens, scope) == [] {
        DropBucketOk(sites, i);
      } else {
        ShrinkBucketOk(sites, i, WithoutScope(tokens, scope));
      }
    }
  }

  // ---- what a directive changes ----

  ghost predicate Holds(sites: Sites, origin: Origin, t: SessionToken) {
    exists i :: 0 <= i < |sites| && sites[i].origin == origin && t in sites[i].tokens
  }

  /** The token a new scope pushes out of a full site. */
  ghost predicate PushedOut(sites: Sites, origin: Origin, scope: string, t: SessionToken) {
    var i := SiteAt(sites, origin);
    && i < |sites| && |sites[i].tokens| >= MAX_SESSIONS_PER_SITE
    && ScopeAt(sites[i].tokens, scope) == |sites[i].tokens| && t == sites[i].tokens[0]
  }

  lemma WithTokenHolds(site: Site, t: SessionToken, u: SessionToken)
    requires |site| <= MAX_SESSIONS_PER_SITE && DistinctScopes(site)
    ensures u in WithToken(site, t) <==>
            u == t || (u in site && u.scope != t.scope
                       && !(|site| == MAX_SESSIONS_PER_SITE && ScopeAt(site, t.scope) == |site| && u == site[0]))
  {
    var after := WithToken(site, t);
    var i := ScopeAt(site, t.scope);
    if i < |site| {
      assert after[i] == t;
      if u in site && u.scope != t.scope {
        var k :| 0 <= k < |site| && site[k] == u;
        assert after[k] == u;
      }
    } else {
      assert after[|after| - 1] == t;
      assert u in site ==> u.scope != t.scope;
      if |site| == MAX_SESSIONS_PER_SITE {
        assert site == [site[0]] + site[1..];
        assert site[0] !in site[1..];
      }
    }
  }

  lemma HoldsAtSite(sites: Sites, origin: Origin, t: SessionToken)
    requires DistinctOrigins(sites)
    ensures Holds(sites, origin, t) <==>
            SiteAt(sites, origin) < |sites| && t in sites[SiteAt(sites, origin)].tokens
  {
    if Holds(sites, origin, t) {
      var i :| 0 <= i < |sites| && sites[i].origin == origin && t in sites[i].tokens;
      assert SiteAt(sites, origin) == i;
    }
  }

  lemma SameOrigins(a: Sites, b: Sites, o: Origin)
    requires |a| == |b| && forall i :: 0 <= i < |a| ==> a[i].origin == b[i].origin
    ensures SiteAt(a, o) == SiteAt(b, o)
  {
    var i, j := SiteAt(a, o), SiteAt(b, o);
    assert i < |a| ==> b[i].origin == o;
    assert j < |a| ==> a[j].origin == o;
  }

  lemma SiteAtAppended(sites: Sites, b: Bucket, o: Origin)
    ensures SiteAt(sites + [b], o) == if SiteAt(sites, o) == |sites| && b.origin != o then |sites| + 1 else SiteAt(sites, o)
  {
    var after := sites + [b];
    var i, j := SiteAt(sites, o), SiteAt(after, o);
    assert after[|sites|] == b;
    assert i < |sites| ==> after[i] == sites[i];
    assert j < |sites| ==> after[j] == sites[j];
  }

  /** Setting a token changes that origin and scope alone, but for the oldest token of a full site. */
  lemma SetIsLocal(sites: Sites, origin: Origin, t: SessionToken, o: Origin, u: SessionToken)
    requires StoreOk(sites) && !Refuses(sites, origin, t.scope)
    ensures Holds(WithSession(sites, origin, t), o, u) <==>
            || (o == origin && u == t)
            || (Holds(sites, o, u) && !(o == origin && (u.scope == t.scope || PushedOut(sites, origin, t.scope, u))))
  {
    var after := WithSession(sites, origin, t);
    WithSessionOk(sites, origin, t);
    HoldsAtSite(sites, o, u);
    HoldsAtSite(after, o, u);
    var i := SiteAt(sites, origin);
    if i < |sites| {
      WithTokenHolds(sites[i].tokens, t, u);
      assert after[i].origin == origin;
      SameOrigins(sites, after, o);
    } else {
      WithTokenHolds([], t, u);
      assert after[|sites|].origin == origin;
      SiteAtAppended(sites, after[|sites|], o);
    }
  }

  /** A token is refused exactly when the store holds 256, none of them of its origin and scope, and its
      origin holds fewer than the eight that would make the oldest give way. */
  lemma RefusesIff(sites: Sites, origin: Origin, scope: string)
    requires DistinctOrigins(sites)
    ensures Refuses(sites, origin, scope) <==>
            && Total(sites) >= 256
            && (forall t :: Holds(sites, origin, t) ==> t.scope != scope)
            && (forall i :: 0 <= i < |sites| && sites[i].origin == origin ==> |sites[i].tokens| < 8)
  {
    var i := SiteAt(sites, origin);
    if i < |sites| {
      var k := ScopeAt(sites[i].tokens, scope);
      if k < |sites[i].tokens| {
        assert Holds(sites, origin, sites[i].tokens[k]);
      } else {
        forall t | Holds(sites, origin, t)
          ensures t.scope != scope
        {
          HoldsAtSite(sites, origin, t);
        }
      }
    }
  }

  /** The last eight of a list. */
  function LastEight(site: Site): Site {
    if |site| <= 8 then site else site[|site| - 8..]
  }

  /** A site after some tokens are set in turn. */
  function WithTokens(site: Site, ts: Site): Site
    decreases |ts|
  {
    if ts == [] then site else WithTokens(WithToken(site, ts[0]), ts[1..])
  }

  /** Tokens of new scopes are kept in the order they are set, the last eight of them. */
  lemma {:induction false} LastEightStay(site: Site, ts: Site)
    requires |site| <= 8 && DistinctScopes(site + ts)
    ensures WithTokens(site, ts) == LastEight(site + ts)
    decreases |ts|
  {
    if ts == [] {
      assert site + ts == site;
    } else {
      var next := WithToken(site, ts[0]);
      OneMoreToken(site, ts, next);
      LastEightStay(next, ts[1..]);
    }
  }

  lemma OneMoreToken(site: Site, ts: Site, next: Site)
    requires |site| <= 8 && DistinctScopes(site + ts) && ts != [] && next == WithToken(site, ts[0])
    ensures |next| <= 8 && DistinctScopes(next + ts[1..])
    ensures LastEight(next + ts[1..]) == LastEight(site + ts)
  {
    var all := site + ts;
    assert all[|site|] == ts[0];
    assert forall i :: 0 <= i < |site| ==> all[i] == site[i];
    NewTokenIsLast(site, ts[0]);
    assert site + [ts[0]] + ts[1..] == all;
    if |site| == 8 {
      assert next + ts[1..] == all[1..];
      assert all[1..][|all| - 9..] == all[|all| - 8..];
    } else {
      assert next + ts[1..] == all;
    }
  }

  lemma NewTokenIsLast(site: Site, t: SessionToken)
    requires |site| <= 8 && forall i :: 0 <= i < |site| ==> site[i].scope != t.scope
    ensures WithToken(site, t) == LastEight(site + [t])
  {
    assert ScopeAt(site, t.scope) == |site|;
    if |site| == 8 {
      assert (site + [t])[1..] == site[1..] + [t];
    }
  }

  /** A token of a scope the site has replaces that one where it stands. */
  lemma KnownScopeIsReplaced(site: Site, t: SessionToken, i: nat)
    requires DistinctScopes(site) && i < |site| && site[i].scope == t.scope
    ensures WithToken(site, t) == site[..i] + [t] + site[i + 1..]
  {
    assert ScopeAt(site, t.scope) == i;
  }

  lemma DropBucketHolds(sites: Sites, i: nat, o: Origin, u: SessionToken)
    requires DistinctOrigins(sites) && i < |sites|
    ensures Holds(sites[..i] + sites[i + 1..], o, u) <==> Holds(sites, o, u) && o != sites[i].origin
  {
    var after := sites[..i] + sites[i + 1..];
    assert forall j :: 0 <= j < |after| ==> after[j] == sites[if j < i then j else j + 1];
    if Holds(sites, o, u) && o != sites[i].origin {
      var k :| 0 <= k < |sites| && sites[k].origin == o && u in sites[k].tokens;
      assert after[if k < i then k else k - 1] == sites[k];
    }
  }

  lemma ReplaceBucketHolds(sites: Sites, i: nat, tokens: Site, o: Origin, u: SessionToken)
    requires DistinctOrigins(sites) && i < |sites|
    ensures Holds(sites[i := Bucket(sites[i].origin, tokens)], o, u) <==>
            if o == sites[i].origin then u in tokens else Holds(sites, o, u)
  {
    var after := sites[i := Bucket(sites[i].origin, tokens)];
    assert after[i].origin == sites[i].origin;
    if o != sites[i].origin && Holds(sites, o, u) {
      var k :| 0 <= k < |sites| && sites[k].origin == o && u in sites[k].tokens;
      assert after[k] == sites[k];
    }
  }

  /** Clearing a scope removes exactly the tokens of that origin and scope. */
  lemma ClearIsLocal(sites: Sites, origin: Origin, scope: string, o: Origin, u: SessionToken)
    requires StoreOk(sites)
    ensures Holds(WithoutSession(sites, origin, scope), o, u) <==>
            Holds(sites, o, u) && !(o == origin && u.scope == scope)
  {
    HoldsAtSite(sites, o, u);
    var i := SiteAt(sites, origin);
    if i < |sites| {
      WithoutScopeHolds(sites[i].tokens, scope, u);
      DropBucketHolds(sites, i, o, u);
      ReplaceBucketHolds(sites, i, WithoutScope(sites[i].tokens, scope), o, u);
    }
  }

  lemma {:induction false} WithoutScopeHolds(site: Site, scope: string, u: SessionToken)
    ensures u in WithoutScope(site, scope) <==> u in site && u.scope != scope
  {
    if site != [] {
      WithoutScopeHolds(site[1..], scope, u);
      assert site == [site[0]] + site[1..];
    }
  }

  /** Remove the buckets a test selects. */
  function Retain(sites: Sites, drop: Origin -> bool): Sites {
    if sites == [] then []
    else if drop(sites[0].origin) then Retain(sites[1..], drop)
    else [sites[0]] + Retain(sites[1..], drop)
  }

  lemma {:induction false} RetainHolds(sites: Sites, drop: Origin -> bool, b: Bucket)
    ensures b in Retain(sites, drop) <==> b in sites && !drop(b.origin)
  {
    if sites != [] {
      RetainHolds(sites[1..], drop, b);
      assert sites == [sites[0]] + sites[1..];
    }
  }

  /** Removing the selected origins keeps every other bucket whole. */
  lemma {:induction false} RetainOk(sites: Sites, drop: Origin -> bool)
    requires StoreOk(sites)
    ensures StoreOk(Retain(sites, drop)) && Total(Retain(sites, drop)) <= Total(sites)
  {
    if sites != [] {
      var rest := sites[1..];
      assert forall i :: 0 <= i < |rest| ==> rest[i] == sites[i + 1];
      RetainOk(rest, drop);
      var kept := Retain(rest, drop);
      forall i | 0 <= i < |kept|
        ensures kept[i].origin != sites[0].origin
      {
        RetainHolds(rest, drop, kept[i]);
        var k :| 0 <= k < |rest| && rest[k] == kept[i];
      }
    }
  }

  // ---- runs of directives ----

  datatype Step =
    | Apply(origin: Origin, directive: Directive, copied: bool)
    | ClearKey(drop: Origin -> bool)
    | ClearAll

  function After(sites: Sites, s: Step): Sites {
    match s
    case Apply(origin, Set(token, scope, expires), copied) =>
      if Refuses(sites, origin, scope) || !copied then sites
      else WithSession(sites, origin, SessionToken(token, scope, expires))
    case Apply(origin, Clear(scope), _) => WithoutSession(sites, origin, scope)
    case ClearKey(drop) => Retain(sites, drop)
    case ClearAll => []
  }

  function AfterAll(sites: Sites, steps: seq<Step>): Sites
    decreases |steps|
  {
    if steps == [] then sites else AfterAll(After(sites, steps[0]), steps[1..])
  }

  /** Every run keeps distinct origins, no empty bucket, distinct scopes and both bounds. */
  lemma {:induction false} StoreStaysBounded(sites: Sites, steps: seq<Step>)
    requires StoreOk(sites)
    ensures StoreOk(AfterAll(sites, steps))
    decreases |steps|
  {
    if steps != [] {
      var s := steps[0];
      if s.Apply? {
        if s.directive.Set? {
          if !Refuses(sites, s.origin, s.directive.scope) {
            WithSessionOk(sites, s.origin, SessionToken(s.directive.token, s.directive.scope, s.directive.expires));
          }
        } else {
          WithoutSessionOk(sites, s.origin, s.directive.scope);
        }
      } else if s.ClearKey? {
        RetainOk(sites, s.drop);
      }
      StoreStaysBounded(After(sites, s), steps[1..]);
    }
  }

  ghost predicate AbsoluteStore(sites: Sites) {
    forall i :: 0 <= i < |sites| ==> AbsoluteScopes(sites[i].tokens)
  }

  /** The step stores no scope that is not absolute. */
  ghost predicate AbsoluteStep(s: Step) {
    s.Apply? && s.directive.Set? ==> Absolute(s.directive.scope)
  }

  lemma WithTokenAbsolute(site: Site, t: SessionToken)
    requires AbsoluteScopes(site) && Absolute(t.scope)
    ensures AbsoluteScopes(WithToken(site, t))
  {
  }

  lemma {:induction false} WithoutScopeAbsolute(site: Site, scope: string)
    requires AbsoluteScopes(site)
    ensures AbsoluteScopes(WithoutScope(site, scope))
  {
    if site != [] {
      WithoutScopeAbsolute(site[1..], scope);
    }
  }

  lemma {:induction false} RetainAbsolute(sites: Sites, drop: Origin -> bool)
    requires AbsoluteStore(sites)
    ensures AbsoluteStore(Retain(sites, drop))
  {
    if sites != [] {
      RetainAbsolute(sites[1..], drop);
    }
  }

  lemma AfterIsAbsolute(sites: Sites, s: Step)
    requires AbsoluteStore(sites) && AbsoluteStep(s)
    ensures AbsoluteStore(After(sites, s))
  {
    if s.Apply? {
      var i := SiteAt(sites, s.origin);
      if s.directive.Set? {
        var t := SessionToken(s.directive.token, s.directive.scope, s.directive.expires);
        WithTokenAbsolute(if i < |sites| then sites[i].tokens else [], t);
      } else if i < |sites| {
        WithoutScopeAbsolute(sites[i].tokens, s.directive.scope);
      }
    } else if s.ClearKey? {
      RetainAbsolute(sites, s.drop);
    }
  }

  /** A store fed with absolute scopes holds absolute scopes only. */
  lemma {:induction false} ScopesStayAbsolute(sites: Sites, steps: seq<Step>)
    requires AbsoluteStore(sites) && forall i :: 0 <= i < |steps| ==> AbsoluteStep(steps[i])
    ensures AbsoluteStore(AfterAll(sites, steps))
    decreases |steps|
  {
    if steps != [] {
      AfterIsAbsolute(sites, steps[0]);
      ScopesStayAbsolute(After(sites, steps[0]), steps[1..]);
    }
  }

  // ---- the store in place ----

  class SessionStore {
    var sites: Sites

    constructor ()
      ensures sites == []
    {
      sites := [];
    }

    /** A copy of every bucket and token. */
    constructor Clone(other: SessionStore)
      ensures sites == other.sites
    {
      sites := other.sites;
    }

    method FindSite(origin: Origin) returns (i: nat)
      ensures i == SiteAt(sites, origin)
    {
      i := 0;
      while i < |sites| && sites[i].origin != origin
        invariant 0 <= i <= |sites| && forall j :: 0 <= j < i ==> sites[j].origin != origin
      {
        i := i + 1;
      }
    }

    method CountAll() returns (n: nat)
      ensures n == Total(sites)
    {
      n := 0;
      var i := |sites|;
      while i > 0
        invariant 0 <= i <= |sites| && n == Total(sites[i..])
      {
        i := i - 1;
        assert sites[i..][1..] == sites[i + 1..];
        n := n + |sites[i].tokens|;
      }
      assert sites[0..] == sites;
    }

    /** Find the most specific unexpired token of an origin. */
    method FindToken(origin: Origin, path: string, now: nat) returns (r: Option<SessionToken>)
      ensures var i := SiteAt(sites, origin); IsMostSpecific(if i < |sites| then sites[i].tokens else [], path, now, r)
    {
      var i := FindSite(origin);
      if i == |sites| {
        return None;
      }
      r := FindInSite(sites[i].tokens, path, now);
    }

    method SetToken(site: Site, t: SessionToken) returns (r: Site)
      ensures r == WithToken(site, t)
    {
      var i := 0;
      while i < |site| && site[i].scope != t.scope
        invariant 0 <= i <= |site| && forall j :: 0 <= j < i ==> site[j].scope != t.scope
      {
        i := i + 1;
      }
      assert i == ScopeAt(site, t.scope);
      if i < |site| {
        return site[i := t];
      }
      r := site;
      if |r| >= MAX_SESSIONS_PER_SITE {
        r := r[1..];
      }
      r := r + [t];
    }

    /** Store a token unless the store is full or a copy fails. */
    method SetSession(origin: Origin, t: SessionToken, copied: bool) returns (applied: bool)
      modifies this
      ensures applied <==> copied && !Refuses(old(sites), origin, t.scope)
      ensures sites == if applied then WithSession(old(sites), origin, t) else old(sites)
    {
      var total := CountAll();
      var i := FindSite(origin);
      var held := i < |sites| && ScopeAt(sites[i].tokens, t.scope) < |sites[i].tokens|;
      var evicts := i < |sites| && |sites[i].tokens| >= MAX_SESSIONS_PER_SITE;
      if !held && !evicts && total >= MAX_TOTAL_SESSIONS {
        return false;
      }
      if !copied {
        return false;
      }
      var tokens := SetToken(if i < |sites| then sites[i].tokens else [], t);
      sites := if i < |sites| then sites[i := Bucket(origin, tokens)] else sites + [Bucket(origin, tokens)];
      applied := true;
    }

    method ClearSession(origin: Origin, scope: string)
      modifies this
      ensures sites == WithoutSession(old(sites), origin, scope)
    {
      var i := FindSite(origin);
      if i < |sites| {
        var kept := WithoutScope(sites[i].tokens, scope);
        sites := if kept == [] then sites[..i] + sites[i + 1..] else sites[i := Bucket(origin, kept)];
      }
    }

    /** Apply one directive. A rejection changes nothing. */
    method ApplyDirective(origin: Origin, d: Directive, copied: bool) returns (applied: bool)
      requires StoreOk(sites)
      modifies this
      ensures StoreOk(sites) && sites == After(old(sites), Apply(origin, d, copied))
      ensures applied <==> d.Clear? || (copied && !Refuses(old(sites), origin, d.scope))
    {
      StoreStaysBounded(sites, [Apply(origin, d, copied)]);
      assert AfterAll(sites, [Apply(origin, d, copied)]) == After(sites, Apply(origin, d, copied));
      match d
      case Set(token, scope, expires) => applied := SetSession(origin, SessionToken(token, scope, expires), copied);
      case Clear(scope) =>
        ClearSession(origin, scope);
        applied := true;
    }

    /** Remove the origins a storage key selects. */
    method ClearStorageKey(drop: Origin -> bool)
      requires StoreOk(sites)
      modifies this
      ensures StoreOk(sites) && sites == After(old(sites), ClearKey(drop))
    {
      RetainOk(sites, drop);
      sites := Retain(sites, drop);
    }

    method Empty()
      modifies this
      ensures StoreOk(sites) && sites == After(old(sites), ClearAll)
    {
      sites := [];
    }
  }
}
