/**
 * The service settings (app/core/config.py): each value read from the
 * environment with its default, and the trusted-network allowlist, a
 * comma-separated string, split into its entries.
 */
module Config {
  import opened PyStr

  /** `os.getenv(name, default)`. */
  function Getenv(env: map<string, string>, name: string, default: string): string {
    if name in env then env[name] else default
  }

  /** `int(os.getenv(name, str(default)))`, with `int()` of a set variable given as `toInt`. */
  function IntSetting(env: map<string, string>, name: string, default: int, toInt: string -> int): int {
    if name in env then toInt(env[name]) else default
  }

  /** `[p.strip() for p in parts]`. */
  function Strips(parts: seq<string>): (r: seq<string>)
    ensures |r| == |parts|
  {
    if parts == [] then [] else [Strip(parts[0])] + Strips(parts[1..])
  }

  lemma {:induction false} StripsAt(parts: seq<string>)
    ensures forall k :: 0 <= k < |parts| ==> Strips(parts)[k] == Strip(parts[k])
  {
    if parts != [] {
      StripsAt(parts[1..]);
      var r := Strips(parts);
      assert r == [Strip(parts[0])] + Strips(parts[1..]);
      forall k | 0 < k < |parts| ensures r[k] == Strip(parts[k]) {
        assert r[k] == Strips(parts[1..])[k - 1] && parts[1..][k - 1] == parts[k];
      }
    }
  }

  lemma {:induction false} StripsAppend(a: seq<string>, b: seq<string>)
    ensures Strips(a + b) == Strips(a) + Strips(b)
  {
    if a == [] {
      assert a + b == b;
    } else {
      assert (a + b)[0] == a[0] && (a + b)[1..] == a[1..] + b;
      StripsAppend(a[1..], b);
    }
  }

  /** The non-empty strings of `xs`, in order. */
  function NonEmpty(xs: seq<string>): (r: seq<string>)
    ensures |r| <= |xs|
  {
    if xs == [] then [] else (if xs[0] != [] then [xs[0]] else []) + NonEmpty(xs[1..])
  }

  /** `[c.strip() for c in raw.split(",") if c.strip()]`. */
  function ParseCidrList(raw: string): seq<string> {
    NonEmpty(Strips(Split(raw, ',')))
  }

  /** Every string of `xs` is a `strip()` result. */
  predicate AllStripped(xs: seq<string>) {
    forall k :: 0 <= k < |xs| ==> IsStripped(xs[k])
  }

  lemma {:induction false} StripsStripped(parts: seq<string>)
    ensures AllStripped(Strips(parts))
  {
    if parts != [] {
      StripsStripped(parts[1..]);
      StripResultIsStripped(parts[0]);
      var r := Strips(parts);
      assert r == [Strip(parts[0])] + Strips(parts[1..]);
      forall k | 0 < k < |r| ensures IsStripped(r[k]) {
        assert r[k] == Strips(parts[1..])[k - 1];
      }
    }
  }

  lemma {:induction false} NonEmptyClean(xs: seq<string>)
    requires AllStripped(xs)
    ensures AllStripped(NonEmpty(xs)) && forall k :: 0 <= k < |NonEmpty(xs)| ==> NonEmpty(xs)[k] != []
  {
    if xs != [] {
      NonEmptyClean(xs[1..]);
      var h: seq<string> := if xs[0] != [] then [xs[0]] else [];
      var t := NonEmpty(xs[1..]);
      assert NonEmpty(xs) == h + t;
      forall k | 0 <= k < |h + t| ensures IsStripped((h + t)[k]) && (h + t)[k] != [] {
        if k < |h| { assert (h + t)[k] == xs[0]; } else { assert (h + t)[k] == t[k - |h|]; }
      }
    }
  }

  /** Every entry of the allowlist is non-empty and has no surrounding whitespace. */
  lemma CidrEntriesClean(raw: string)
    ensures forall k :: 0 <= k < |ParseCidrList(raw)| ==> ParseCidrList(raw)[k] != [] && IsStripped(ParseCidrList(raw)[k])
  {
    StripsStripped(Split(raw, ','));
    NonEmptyClean(Strips(Split(raw, ',')));
  }

  lemma BlankIsAllSpace(s: string)
    requires Strip(s) == []
    ensures forall i :: 0 <= i < |s| ==> IsSpace(s[i])
  {
    StripLeftFacts(s);
    StripRightFacts(StripLeft(s));
  }

  lemma NoCommaInBlank(s: string)
    requires forall i :: 0 <= i < |s| ==> IsSpace(s[i])
    ensures ',' !in s
  {
    assert forall i :: 0 <= i < |s| ==> s[i] != ',';
  }

  /** A blank or whitespace-only string gives the empty allowlist. */
  lemma BlankGivesEmpty(raw: string)
    requires Strip(raw) == []
    ensures ParseCidrList(raw) == []
  {
    BlankIsAllSpace(raw);
    NoCommaInBlank(raw);
    SplitWithoutSep(raw, ',');
    assert Strips([raw]) == [[]];
  }

  lemma {:induction false} NonEmptyAppend(a: seq<string>, b: seq<string>)
    ensures NonEmpty(a + b) == NonEmpty(a) + NonEmpty(b)
  {
    if a == [] {
      assert a + b == b;
    } else {
      assert (a + b)[0] == a[0] && (a + b)[1..] == a[1..] + b;
      NonEmptyAppend(a[1..], b);
    }
  }

  lemma {:induction false} SplitFromAtSep(a: string, b: string, sep: char, cur: string)
    ensures SplitFrom(a + [sep] + b, sep, cur) == SplitFrom(a, sep, cur) + SplitFrom(b, sep, [])
    decreases |a|
  {
    if a == [] {
      assert a + [sep] + b == [sep] + b;
      assert ([sep] + b)[1..] == b;
    } else {
      assert (a + [sep] + b)[0] == a[0] && (a + [sep] + b)[1..] == a[1..] + [sep] + b;
      if a[0] == sep {
        SplitFromAtSep(a[1..], b, sep, []);
      } else {
        SplitFromAtSep(a[1..], b, sep, cur + [a[0]]);
      }
    }
  }

  /** The entries of two lists joined by a comma are the entries of the first, then of the second. */
  lemma ParseCidrListConcat(a: string, b: string)
    ensures ParseCidrList(a + "," + b) == ParseCidrList(a) + ParseCidrList(b)
  {
    SplitFromAtSep(a, b, ',', []);
    StripsAppend(Split(a, ','), Split(b, ','));
    NonEmptyAppend(Strips(Split(a, ',')), Strips(Split(b, ',')));
  }

  lemma {:induction false} NonEmptyOfNonEmpty(xs: seq<string>)
    requires forall k :: 0 <= k < |xs| ==> xs[k] != []
    ensures NonEmpty(xs) == xs
  {
    if xs != [] {
      NonEmptyOfNonEmpty(xs[1..]);
    }
  }

  /** A list written as clean entries separated by commas reads back as exactly those entries, in order. */
  lemma ParseCidrListJoin(entries: seq<string>)
    requires forall k :: 0 <= k < |entries| ==> entries[k] != [] && IsStripped(entries[k]) && ',' !in entries[k]
    ensures ParseCidrList(Join(",", entries)) == entries
  {
    if entries == [] {
      assert Strip("") == [];
      BlankGivesEmpty("");
    } else {
      SplitJoin(entries, ',');
      forall k | 0 <= k < |entries| ensures Strip(entries[k]) == entries[k] {
        StrippedIsFixpoint(entries[k]);
      }
      StripsAt(entries);
      assert Strips(entries) == entries;
      NonEmptyOfNonEmpty(entries);
    }
  }

  const DefaultJwtAlg: string := "HS256"
  const DefaultJwtSecret: string := "dev-secret"
  const DefaultUserClaim: string := "sub"
  const DefaultHeartbeatSeconds: int := 20
  const DefaultRetryMilliseconds: int := 1500

  /** `Settings`: the values read at start-up, then the allowlist parsed from its raw string. */
  class Settings {
    var jwtAlg: string
    var jwtSecret: string
    var jwtUserIdClaim: string
    var sseHeartbeatSeconds: int
    var sseRetryMilliseconds: int
    var internalTrustedCidrsRaw: string
    var internalTrustedCidrs: seq<string>

    constructor (env: map<string, string>, toInt: string -> int)
      ensures jwtAlg == Getenv(env, "JWT_ALG", DefaultJwtAlg)
      ensures jwtSecret == Getenv(env, "JWT_SECRET", DefaultJwtSecret)
      ensures jwtUserIdClaim == Getenv(env, "JWT_USER_ID_CLAIM", DefaultUserClaim)
      ensures sseHeartbeatSeconds == IntSetting(env, "SSE_HEARTBEAT_SECONDS", DefaultHeartbeatSeconds, toInt)
      ensures sseRetryMilliseconds == IntSetting(env, "SSE_RETRY_MILLISECONDS", DefaultRetryMilliseconds, toInt)
      ensures internalTrustedCidrsRaw == Getenv(env, "INTERNAL_TRUSTED_CIDRS", "")
      ensures internalTrustedCidrs == ParseCidrList(internalTrustedCidrsRaw)
    {
      jwtAlg := Getenv(env, "JWT_ALG", DefaultJwtAlg);
      jwtSecret := Getenv(env, "JWT_SECRET", DefaultJwtSecret);
      jwtUserIdClaim := Getenv(env, "JWT_USER_ID_CLAIM", DefaultUserClaim);
      sseHeartbeatSeconds := IntSetting(env, "SSE_HEARTBEAT_SECONDS", DefaultHeartbeatSeconds, toInt);
      sseRetryMilliseconds := IntSetting(env, "SSE_RETRY_MILLISECONDS", DefaultRetryMilliseconds, toInt);
      if "INTERNAL_TRUSTED_CIDRS" in env {
        internalTrustedCidrsRaw := env["INTERNAL_TRUSTED_CIDRS"];
      } else {
        internalTrustedCidrsRaw := "";
      }
      internalTrustedCidrs := [];
      new;
      if Strip(internalTrustedCidrsRaw) != [] {
        internalTrustedCidrs := ParseCidrList(internalTrustedCidrsRaw);
      } else {
        BlankGivesEmpty(internalTrustedCidrsRaw);
      }
    }
  }

  /** With nothing set in the environment, the JWT and event-stream settings take their documented defaults. */
  lemma UnsetDefaults(toInt: string -> int)
    ensures Getenv(map[], "JWT_ALG", DefaultJwtAlg) == "HS256"
    ensures Getenv(map[], "JWT_SECRET", DefaultJwtSecret) == "dev-secret"
    ensures Getenv(map[], "JWT_USER_ID_CLAIM", DefaultUserClaim) == "sub"
    ensures IntSetting(map[], "SSE_HEARTBEAT_SECONDS", DefaultHeartbeatSeconds, toInt) == 20
    ensures IntSetting(map[], "SSE_RETRY_MILLISECONDS", DefaultRetryMilliseconds, toInt) == 1500
    ensures ParseCidrList(Getenv(map[], "INTERNAL_TRUSTED_CIDRS", "")) == []
  {
    BlankGivesEmpty("");
  }
}
