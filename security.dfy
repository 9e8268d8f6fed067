/**
 * The request guards (app/core/security.py): `auth_required`, which lets an
 * authenticated context through, and `internal_trusted`, which admits a
 * client only if its address lies in one of the configured networks (a
 * prefix match in the sense of section 3.1 of RFC 4632). Parsing an address
 * or a network is an input, as `ipaddress` does it.
 */
module Security {
  import opened Wrappers
  import opened JwtAuth

  const Forbidden: nat := 403
  const UnauthorizedDetail: string := "Unauthorized"
  const ForbiddenDetail: string := "Forbidden"

  /** `auth_required(ctx)`: 401 when there is no context or it names no user, else the context unchanged. */
  function AuthRequired(ctx: Option<AuthContext>): (r: Result<AuthContext, HttpError>)
    ensures r.Ok? <==> ctx.Some? && ctx.value.userId.Some?
    ensures r.Ok? ==> r.value == ctx.value
    ensures r.Err? ==> r.error == HttpError(Unauthorized, UnauthorizedDetail)
  {
    if ctx.None? || ctx.value.userId.None? then Err(HttpError(Unauthorized, UnauthorizedDetail)) else Ok(ctx.value)
  }

  /** The dependency chain of a protected route: `authenticate` first, then `auth_required` on its result. */
  function Protected(auth: Result<AuthContext, HttpError>): Result<AuthContext, HttpError> {
    match auth
    case Err(e) => Err(e)
    case Ok(ctx) => AuthRequired(Some(ctx))
  }

  /** `auth_required` never changes what `authenticate` decided: every context it returns names a user. */
  lemma ProtectedIsAuthenticate(query: Option<string>, header: string, decode: Decoder,
                                secret: string, alg: string, userClaim: string)
    ensures Protected(AuthOutcome(query, header, decode, secret, alg, userClaim))
         == AuthOutcome(query, header, decode, secret, alg, userClaim)
  {
  }

  // ---------------------------------------------------------------------
  // Addresses and networks
  // ---------------------------------------------------------------------

  /** An IPv4 (`v6 == false`) or IPv6 address, as its integer value. */
  datatype Address = Address(v6: bool, value: nat)

  /** An `ip_network(cidr, strict=False)`: its version, the address it was written with, and its prefix length. */
  datatype Network = Network(v6: bool, base: nat, prefix: nat)

  function Width(v6: bool): nat {
    if v6 then 128 else 32
  }

  function Pow2(n: nat): (r: nat)
    ensures r >= 1
  {
    if n == 0 then 1 else 2 * Pow2(n - 1)
  }

  /** A well-formed address: its value fits its version's width. */
  predicate ValidAddress(a: Address) {
    a.value < Pow2(Width(a.v6))
  }

  /** A well-formed network: address in range and a prefix no longer than the width. */
  predicate ValidNetwork(n: Network) {
    n.base < Pow2(Width(n.v6)) && n.prefix <= Width(n.v6)
  }

  /** `value` shifted right by `k` bits. */
  function Shift(value: nat, k: nat): nat {
    if k == 0 then value else Shift(value / 2, k - 1)
  }

  /** The leading `len` bits of a `width`-bit value. */
  function Leading(value: nat, width: nat, len: nat): nat
    requires len <= width
  {
    Shift(value, width - len)
  }

  /**
   * `ip in network`: same version and the same leading `prefix` bits
   * (`strict=False` lets the network be written with host bits set; they
   * are ignored). An address of the other version is never in the network.
   */
  predicate InNetwork(a: Address, n: Network) {
    a.v6 == n.v6 && n.prefix <= Width(n.v6) && Leading(a.value, Width(a.v6), n.prefix) == Leading(n.base, Width(n.v6), n.prefix)
  }

  lemma OtherVersionNotIn(a: Address, n: Network)
    requires a.v6 != n.v6
    ensures !InNetwork(a, n)
  {
  }

  /** A full-length prefix (`/32`, `/128`) admits exactly the one address. */
  lemma FullPrefixIsExact(a: Address, n: Network)
    requires ValidNetwork(n) && n.prefix == Width(n.v6)
    ensures InNetwork(a, n) <==> a.v6 == n.v6 && a.value == n.base
  {
  }

  lemma {:induction false} BelowPow2(x: nat, w: nat)
    requires x < Pow2(w)
    ensures Shift(x, w) == 0
  {
    if w > 0 {
      BelowPow2(x / 2, w - 1);
    }
  }

  /** A zero-length prefix (`0.0.0.0/0`, `::/0`) admits every address of its version. */
  lemma ZeroPrefixAdmitsAll(a: Address, n: Network)
    requires ValidNetwork(n) && n.prefix == 0 && ValidAddress(a)
    ensures InNetwork(a, n) <==> a.v6 == n.v6
  {
    if a.v6 == n.v6 {
      BelowPow2(a.value, Width(a.v6));
      BelowPow2(n.base, Width(n.v6));
    }
  }

  // ---------------------------------------------------------------------
  // internal_trusted
  // ---------------------------------------------------------------------

  /** What `internal_trusted` does: return (admit), raise 403, or fail with an uncaught `ValueError`. */
  datatype Verdict = Admit | Deny | Fault

  /** `ip_network(cidr, strict=False)`: a valid network, or `None` where it raises `ValueError`. */
  type NetworkParser = string -> Option<Network>

  /** `ip_address(host)`: an address, or `None` where it raises `ValueError`. */
  type AddressParser = string -> Option<Address>

  /** The `for` loop over the allowlist: the first network that holds the address admits, a bad entry faults. */
  function Search(ip: Address, cidrs: seq<string>, parseNet: NetworkParser): Verdict
  {
    if cidrs == [] then Deny
    else match parseNet(cidrs[0])
      case None => Fault
      case Some(n) => if InNetwork(ip, n) then Admit else Search(ip, cidrs[1..], parseNet)
  }

  /** `internal_trusted(request)` with allowlist `cidrs` and client host `host` (`None` without a client). */
  function InternalTrusted(cidrs: seq<string>, host: Option<string>,
                           parseAddr: AddressParser, parseNet: NetworkParser): Verdict
  {
    if cidrs == [] then Admit
    else if host.None? || host.value == "" then Deny
    else match parseAddr(host.value)
      case None => Fault
      case Some(ip) => Search(ip, cidrs, parseNet)
  }

  /** An empty allowlist admits every request, with or without a client address. */
  lemma EmptyAllowlistAdmits(host: Option<string>, parseAddr: AddressParser, parseNet: NetworkParser)
    ensures InternalTrusted([], host, parseAddr, parseNet) == Admit
  {
  }

  /** With an allowlist, a request without a client address is refused before anything is parsed. */
  lemma NoHostDenied(cidrs: seq<string>, host: Option<string>, parseAddr: AddressParser, parseNet: NetworkParser)
    requires cidrs != [] && (host.None? || host == Some(""))
    ensures InternalTrusted(cidrs, host, parseAddr, parseNet) == Deny
  {
  }

  /** With an allowlist, a client host that is not an address ends the request with the uncaught `ValueError`, whatever the entries. */
  lemma UnparsableHostFaults(cidrs: seq<string>, h: string, parseAddr: AddressParser, parseNet: NetworkParser)
    requires cidrs != [] && h != "" && parseAddr(h).None?
    ensures InternalTrusted(cidrs, Some(h), parseAddr, parseNet) == Fault
  {
  }

  /** Every entry parses. */
  predicate AllParse(cidrs: seq<string>, parseNet: NetworkParser) {
    forall k :: 0 <= k < |cidrs| ==> parseNet(cidrs[k]).Some?
  }

  /** Entry `k` parses to a network holding `ip`. */
  predicate HitAt(ip: Address, cidrs: seq<string>, parseNet: NetworkParser, k: nat)
    requires k < |cidrs|
  {
    parseNet(cidrs[k]).Some? && InNetwork(ip, parseNet(cidrs[k]).value)
  }

  /** When every entry parses, the loop admits exactly when some network holds the address, and refuses otherwise. */
  lemma {:induction false} SearchAdmitsIffSomeHit(ip: Address, cidrs: seq<string>, parseNet: NetworkParser)
    requires AllParse(cidrs, parseNet)
    ensures Search(ip, cidrs, parseNet) == Admit <==> exists k :: 0 <= k < |cidrs| && HitAt(ip, cidrs, parseNet, k)
    ensures Search(ip, cidrs, parseNet) != Fault
  {
    if cidrs != [] {
      var rest := cidrs[1..];
      assert AllParse(rest, parseNet) by {
        forall k | 0 <= k < |rest| ensures parseNet(rest[k]).Some? {
          assert rest[k] == cidrs[k + 1];
        }
      }
      SearchAdmitsIffSomeHit(ip, rest, parseNet);
      assert parseNet(cidrs[0]).Some?;
      if !HitAt(ip, cidrs, parseNet, 0) {
        if exists k :: 0 <= k < |cidrs| && HitAt(ip, cidrs, parseNet, k) {
          var k :| 0 <= k < |cidrs| && HitAt(ip, cidrs, parseNet, k);
          assert k > 0 && rest[k - 1] == cidrs[k];
          assert HitAt(ip, rest, parseNet, k - 1);
        }
        if exists k :: 0 <= k < |rest| && HitAt(ip, rest, parseNet, k) {
          var k :| 0 <= k < |rest| && HitAt(ip, rest, parseNet, k);
          assert rest[k] == cidrs[k + 1];
          assert HitAt(ip, cidrs, parseNet, k + 1);
        }
      }
    }
  }

  /**
   * The loop faults exactly when it reaches an entry that does not parse:
   * some entry `k` fails to parse and no entry before it holds the address.
   * A bad entry after a match is never looked at.
   */
  lemma {:induction false} SearchFaultsIffBadEntryFirst(ip: Address, cidrs: seq<string>, parseNet: NetworkParser)
    ensures Search(ip, cidrs, parseNet) == Fault <==>
      exists k :: 0 <= k < |cidrs| && parseNet(cidrs[k]).None? && forall j :: 0 <= j < k ==> !HitAt(ip, cidrs, parseNet, j)
  {
    if cidrs != [] {
      var rest := cidrs[1..];
      SearchFaultsIffBadEntryFirst(ip, rest, parseNet);
      if parseNet(cidrs[0]).None? {
      } else if HitAt(ip, cidrs, parseNet, 0) {
        forall k | 0 <= k < |cidrs| && parseNet(cidrs[k]).None?
          ensures exists j :: 0 <= j < k && HitAt(ip, cidrs, parseNet, j)
        {
          assert 0 < k && HitAt(ip, cidrs, parseNet, 0);
        }
      } else {
        if exists k :: 0 <= k < |cidrs| && parseNet(cidrs[k]).None? && forall j :: 0 <= j < k ==> !HitAt(ip, cidrs, parseNet, j) {
          var k :| 0 <= k < |cidrs| && parseNet(cidrs[k]).None? && forall j :: 0 <= j < k ==> !HitAt(ip, cidrs, parseNet, j);
          assert k > 0 && rest[k - 1] == cidrs[k];
          forall j | 0 <= j < k - 1 ensures !HitAt(ip, rest, parseNet, j) {
            assert rest[j] == cidrs[j + 1];
            assert !HitAt(ip, cidrs, parseNet, j + 1);
          }
        }
        if exists k :: 0 <= k < |rest| && parseNet(rest[k]).None? && forall j :: 0 <= j < k ==> !HitAt(ip, rest, parseNet, j) {
          var k :| 0 <= k < |rest| && parseNet(rest[k]).None? && forall j :: 0 <= j < k ==> !HitAt(ip, rest, parseNet, j);
          assert rest[k] == cidrs[k + 1];
          forall j | 0 <= j < k + 1 ensures !HitAt(ip, cidrs, parseNet, j) {
            if j > 0 {
              assert rest[j - 1] == cidrs[j];
              assert !HitAt(ip, rest, parseNet, j - 1);
            }
          }
        }
      }
    }
  }

  /** With an allowlist of parseable entries and a parseable client address, the guard admits exactly the addresses some entry holds. */
  lemma InternalTrustedIff(cidrs: seq<string>, h: string, parseAddr: AddressParser, parseNet: NetworkParser)
    requires cidrs != [] && h != "" && parseAddr(h).Some? && AllParse(cidrs, parseNet)
    ensures var v := InternalTrusted(cidrs, Some(h), parseAddr, parseNet);
      && (v == Admit <==> exists k :: 0 <= k < |cidrs| && HitAt(parseAddr(h).value, cidrs, parseNet, k))
      && (v != Admit ==> v == Deny)
  {
    SearchAdmitsIffSomeHit(parseAddr(h).value, cidrs, parseNet);
  }
}
