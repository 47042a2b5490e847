/**
 * The web layer's pure helpers: the template functions (sub, add, nums,
 * duration), URL prefixing, and the access decision of the auth wrapper, with
 * the HTTP request reduced to the three things the decision reads.
 */
module Web {
  import opened Wrappers
  import opened GoInt
  import opened Text

  // ------------------------------------------------------------ template functions

  /** The `add` template function on int64 values. */
  function Add(a: int, b: int): (r: int)
    ensures IsInt64(r)
    ensures IsInt64(a + b) ==> r == a + b
  {
    WrapInt64(a + b)
  }

  /** The `sub` template function on int64 values. */
  function Sub(a: int, b: int): (r: int)
    ensures IsInt64(r)
    ensures IsInt64(a - b) ==> r == a - b
  {
    WrapInt64(a - b)
  }

  /** Subtracting what was added gives back the int64 operand, even across wrap-around. */
  lemma SubAdd(a: int, b: int)
    requires IsInt64(a)
    ensures Sub(Add(a, b), b) == a
  {
    var s := Add(a, b);
    assert (s - (a + b)) % TwoTo64 == 0;
    assert ((s - b) - a) % TwoTo64 == 0;
    WrapInt64Congruent(s - b, a);
  }

  /** The `nums` template function: 0, 1, ..., max-1 (nothing when max is not positive). */
  method Nums(max: int) returns (nums: seq<int>)
    ensures |nums| == if max > 0 then max else 0
    ensures forall i :: 0 <= i < |nums| ==> nums[i] == i
  {
    nums := [];
    var i := 0;
    while i < max
      invariant 0 <= i <= (if max > 0 then max else 0)
      invariant |nums| == i
      invariant forall j :: 0 <= j < i ==> nums[j] == j
    {
      nums := nums + [i];
      i := i + 1;
    }
  }

  /** `%02d`: zero-padded to two characters; a minus sign counts towards the width. */
  function Pad2(n: int): string
  {
    if 0 <= n < 10 then "0" + IntToString(n) else IntToString(n)
  }

  /** Two-digit fields read back as the number they print. */
  lemma Pad2Digits(n: int)
    requires 0 <= n < 60
    ensures IsDigits(Pad2(n)) && |Pad2(n)| == 2
    ensures DigitsValue(Pad2(n)) == n
  {
    DigitsRoundTrip(n);
    if n < 10 {
      assert Pad2(n) == ['0', DigitChar(n)];
      assert Pad2(n)[..1] == "0";
    } else {
      assert NatToString(n) == NatToString(n / 10) + [DigitChar(n % 10)];
    }
  }

  /** The hours, minutes and seconds fields of `duration`, using Go's truncating division. */
  function Hours(seconds: int): int { Quot(seconds, 3600) }
  function Minutes(seconds: int): int { Quot(seconds - Hours(seconds) * 3600, 60) }
  function Secs(seconds: int): int { seconds - Hours(seconds) * 3600 - Minutes(seconds) * 60 }

  /** The `duration` template function: "H:MM:SS" when there are whole hours, "M:SS" otherwise. */
  function Duration(seconds: int): string
  {
    if Hours(seconds) > 0 then IntToString(Hours(seconds)) + ":" + Pad2(Minutes(seconds)) + ":" + Pad2(Secs(seconds))
    else IntToString(Minutes(seconds)) + ":" + Pad2(Secs(seconds))
  }

  /** For a non-negative length the three fields are its hours/minutes/seconds decomposition. */
  lemma DurationFields(seconds: int)
    requires seconds >= 0
    ensures Hours(seconds) >= 0 && 0 <= Minutes(seconds) < 60 && 0 <= Secs(seconds) < 60
    ensures Hours(seconds) * 3600 + Minutes(seconds) * 60 + Secs(seconds) == seconds
    ensures Hours(seconds) == seconds / 3600
  {
    var h := seconds / 3600;
    var rest := seconds - h * 3600;
    assert Hours(seconds) == h;
    assert 0 <= rest < 3600;
    assert Minutes(seconds) == rest / 60;
  }

  /** Negative lengths keep the sign in every field, as truncating division does. */
  lemma DurationNegative()
    ensures Duration(-61) == "-1:-1"
    ensures Duration(-3661) == "-1:-1"
  {
    assert Hours(-61) == 0 && Minutes(-61) == -1 && Secs(-61) == -1;
    assert Hours(-3661) == -1 && Minutes(-3661) == -1 && Secs(-3661) == -1;
    assert NatToString(1) == "1";
  }

  /** A URL path below the configured prefix. */
  function Prefix(httpPrefix: string, path: string): (r: string)
  {
    httpPrefix + path
  }

  /** The prefix can be taken off again to recover the path. */
  lemma PrefixTrim(httpPrefix: string, path: string)
    ensures HasPrefix(Prefix(httpPrefix, path), httpPrefix)
    ensures TrimPrefix(Prefix(httpPrefix, path), httpPrefix) == path
  {
    assert Prefix(httpPrefix, path)[..|httpPrefix|] == httpPrefix;
  }

  // ------------------------------------------------------------------------ auth

  /** The user and password of a Basic Authorization header. */
  datatype Credentials = Credentials(user: string, password: string)

  /**
   * The auth configuration: the --http-admin entries (None when the flag was
   * never given, which selects reverse-proxy mode), the --http-read-only
   * entries, the trusted proxy address and the optional backlink.
   */
  datatype AuthConfig = AuthConfig(admins: Option<seq<string>>, readonlys: seq<string>, proxyIP: string, backlink: string)

  /**
   * What auth reads of a request: the Basic credentials if present, the host part
   * of the remote address (None when it does not split into host and port), and
   * the value of the reverse-proxy user header ("" when absent).
   */
  datatype Request = Request(basic: Option<Credentials>, clientIP: Option<string>, proxyHeader: string)

  /**
   * The outcome of the auth wrapper: the handler runs (with the "user" parameter
   * when one was authenticated), 401 with a Basic challenge, a redirect to the
   * backlink, 404, or an index panic on a configured entry without ':'.
   */
  datatype Decision = Serve(user: Option<string>) | Unauthorized | Redirect(location: string) | NotFound | Panicked

  /** r.BasicAuth(): the empty user and password when the header is missing. */
  function Presented(req: Request): Credentials
  {
    if req.basic.Some? then req.basic.value else Credentials("", "")
  }

  /** The entries checked for a role: every admin, then the read-only users for the "readonly" role. */
  function UserList(admins: seq<string>, readonlys: seq<string>, role: string): (list: seq<string>)
    ensures admins <= list
    ensures role == "readonly" ==> list == admins + readonlys
    ensures role != "readonly" ==> list == admins
  {
    admins + (if role == "readonly" then readonlys else [])
  }

  /** A configured "user:password" entry accepts the credentials: fields 0 and 1 of its ':' split. */
  predicate EntryMatches(entry: string, c: Credentials)
  {
    var f := Split(entry, ':');
    |f| >= 2 && f[0] == c.user && f[1] == c.password
  }

  /** The entries in order: the first that matches admits, one without ':' panics, none rejects. */
  function CheckList(list: seq<string>, c: Credentials): Decision
  {
    if |list| == 0 then Unauthorized
    else
      var f := Split(list[0], ':');
      if |f| < 2 then Panicked
      else if f[0] == c.user && f[1] == c.password then Serve(Some(c.user))
      else CheckList(list[1..], c)
  }

  /** The auth wrapper's decision for a handler registered with `role`. */
  function Auth(cfg: AuthConfig, role: string, req: Request): Decision
  {
    if role == "none" then Serve(None)
    else if cfg.admins.Some? then CheckList(UserList(cfg.admins.value, cfg.readonlys, role), Presented(req))
    else if req.clientIP.None? then NotFound
    else
      var user := if req.clientIP.value == cfg.proxyIP then req.proxyHeader else "";
      if user == "" then (if cfg.backlink != "" then Redirect(cfg.backlink) else NotFound)
      else Serve(Some(user))
  }

  /** The auth wrapper, checking the user list entry by entry. */
  method Authorize(cfg: AuthConfig, role: string, req: Request) returns (d: Decision)
    ensures d == Auth(cfg, role, req)
  {
    if role == "none" {
      return Serve(None);
    }
    if cfg.admins.Some? {
      var userList := cfg.admins.value;
      if role == "readonly" {
        userList := userList + cfg.readonlys;
      }
      var c := Presented(req);
      for i := 0 to |userList|
        invariant CheckList(userList, c) == CheckList(userList[i..], c)
      {
        assert userList[i..][1..] == userList[i + 1..];
        var split := Split(userList[i], ':');
        if |split| < 2 {
          return Panicked;
        }
        if c.user == split[0] && c.password == split[1] {
          return Serve(Some(c.user));
        }
      }
      return Unauthorized;
    }
    if req.clientIP.None? {
      return NotFound;
    }
    var user := "";
    if req.clientIP.value == cfg.proxyIP {
      user := req.proxyHeader;
    }
    if user == "" {
      if cfg.backlink != "" {
        return Redirect(cfg.backlink);
      }
      return NotFound;
    }
    return Serve(Some(user));
  }

  /** An entry splits into at least the two fields auth reads exactly when it holds a ':'. */
  lemma EntryFields(entry: string)
    ensures |Split(entry, ':')| >= 2 <==> ':' in entry
  {
    if ':' in entry {
      var i := IndexOf(entry, ':');
      assert entry == entry[..i] + [':'] + entry[i + 1..];
      SplitCons(entry[..i], entry[i + 1..], ':');
    } else {
      SplitFree(entry, ':');
    }
  }

  /**
   * The decision over a user list: with every entry well formed, the credentials
   * are admitted exactly when some entry matches them, and rejected otherwise.
   */
  lemma {:induction false} CheckListWellFormed(list: seq<string>, c: Credentials)
    requires forall i :: 0 <= i < |list| ==> ':' in list[i]
    ensures CheckList(list, c) == (if exists i :: 0 <= i < |list| && EntryMatches(list[i], c) then Serve(Some(c.user)) else Unauthorized)
  {
    if |list| > 0 {
      EntryFields(list[0]);
      CheckListWellFormed(list[1..], c);
      MatchCons(list, c);
    }
  }

  /** Some entry matches exactly when the first one does or some later one does. */
  lemma MatchCons(list: seq<string>, c: Credentials)
    requires |list| > 0
    ensures (exists i :: 0 <= i < |list| && EntryMatches(list[i], c)) <==>
      EntryMatches(list[0], c) || exists i :: 0 <= i < |list[1..]| && EntryMatches(list[1..][i], c)
  {
    if exists i :: 0 <= i < |list| && EntryMatches(list[i], c) {
      var i :| 0 <= i < |list| && EntryMatches(list[i], c);
      if i > 0 {
        assert list[1..][i - 1] == list[i];
      }
    }
    if exists i :: 0 <= i < |list[1..]| && EntryMatches(list[1..][i], c) {
      var i :| 0 <= i < |list[1..]| && EntryMatches(list[1..][i], c);
      assert list[i + 1] == list[1..][i];
    }
  }

  /** A panic needs an entry without ':' that no earlier entry's match has cut short. */
  lemma {:induction false} CheckListPanics(list: seq<string>, c: Credentials)
    ensures CheckList(list, c) == Panicked ==> exists i :: 0 <= i < |list| && ':' !in list[i]
  {
    if |list| > 0 {
      EntryFields(list[0]);
      CheckListPanics(list[1..], c);
      if CheckList(list, c) == Panicked && ':' in list[0] {
        var i :| 0 <= i < |list[1..]| && ':' !in list[1..][i];
        assert list[i + 1] == list[1..][i];
      }
    }
  }

  /** Every entry of the list is well formed. */
  predicate AllWellFormed(list: seq<string>)
  {
    forall i :: 0 <= i < |list| ==> ':' in list[i]
  }

  /** An admin's credentials open every protected handler, whatever its role. */
  lemma AdminAccepted(cfg: AuthConfig, role: string, req: Request, i: int)
    requires role != "none" && cfg.admins.Some?
    requires AllWellFormed(cfg.admins.value) && AllWellFormed(cfg.readonlys)
    requires 0 <= i < |cfg.admins.value| && EntryMatches(cfg.admins.value[i], Presented(req))
    ensures Auth(cfg, role, req) == Serve(Some(Presented(req).user))
  {
    var list := UserList(cfg.admins.value, cfg.readonlys, role);
    assert list[i] == cfg.admins.value[i];
    assert AllWellFormed(list) by {
      forall j | 0 <= j < |list| ensures ':' in list[j] {
        if j >= |cfg.admins.value| {
          assert list[j] == cfg.readonlys[j - |cfg.admins.value|];
        }
      }
    }
    CheckListWellFormed(list, Presented(req));
  }

  /** Read-only credentials open only the handlers registered with the "readonly" role. */
  lemma ReadOnlyOnlyForReadOnlyRole(cfg: AuthConfig, role: string, req: Request, i: int)
    requires cfg.admins.Some? && AllWellFormed(cfg.admins.value) && AllWellFormed(cfg.readonlys)
    requires forall j :: 0 <= j < |cfg.admins.value| ==> !EntryMatches(cfg.admins.value[j], Presented(req))
    requires 0 <= i < |cfg.readonlys| && EntryMatches(cfg.readonlys[i], Presented(req))
    ensures role == "readonly" ==> Auth(cfg, role, req) == Serve(Some(Presented(req).user))
    ensures role != "readonly" && role != "none" ==> Auth(cfg, role, req) == Unauthorized
  {
    var list := UserList(cfg.admins.value, cfg.readonlys, role);
    var n := |cfg.admins.value|;
    assert AllWellFormed(list) by {
      forall j | 0 <= j < |list| ensures ':' in list[j] {
        if j >= n {
          assert list[j] == cfg.readonlys[j - n];
        }
      }
    }
    CheckListWellFormed(list, Presented(req));
    if role == "readonly" {
      assert list[n + i] == cfg.readonlys[i];
    }
  }

  /** A configured password stops at the entry's second ':'; the text after it is ignored. */
  lemma PasswordStopsAtColon(u: string, p: string, q: string)
    requires ':' !in u && ':' !in p
    ensures EntryMatches(u + ":" + p + ":" + q, Credentials(u, p))
    ensures !EntryMatches(u + ":" + p + ":" + q, Credentials(u, p + ":" + q))
  {
    var entry := u + ":" + p + ":" + q;
    assert entry == u + [':'] + (p + [':'] + q);
    SplitCons(u, p + [':'] + q, ':');
    SplitCons(p, q, ':');
    assert |p + ":" + q| > |p|;
  }

  /**
   * Reverse-proxy mode (no admin entries): a protected handler runs exactly when
   * the request comes from the trusted proxy with a non-empty user header, and
   * that header names the user; everyone else goes to the backlink or gets 404.
   */
  lemma ProxyMode(cfg: AuthConfig, role: string, req: Request)
    requires cfg.admins.None? && role != "none"
    ensures Auth(cfg, role, req).Serve? <==> req.clientIP == Some(cfg.proxyIP) && req.proxyHeader != ""
    ensures Auth(cfg, role, req).Serve? ==> Auth(cfg, role, req).user == Some(req.proxyHeader)
    ensures !Auth(cfg, role, req).Serve? ==>
      Auth(cfg, role, req) == (if req.clientIP.Some? && cfg.backlink != "" then Redirect(cfg.backlink) else NotFound)
  {
  }
}
