/**
 * Event ids (app/utils/ids.py): the wall clock in milliseconds in decimal,
 * a `-`, and the first eight hex digits of a random UUID. The clock reading
 * and the UUID's 128-bit value are inputs.
 */
module EventIds {
  import opened PyStr

  /** A hex digit as `uuid.UUID.hex` writes it: `0`-`9` or lowercase `a`-`f`. */
  predicate IsHexDigit(c: char) {
    '0' <= c <= '9' || 'a' <= c <= 'f'
  }

  predicate AllHex(s: string) {
    forall i :: 0 <= i < |s| ==> IsHexDigit(s[i])
  }

  function HexChar(d: nat): (c: char)
    requires d < 16
    ensures IsHexDigit(c)
  {
    if d < 10 then ('0' as int + d) as char else ('a' as int + (d - 10)) as char
  }

  /** The last `width` hex digits of `u`, zero-padded, most significant first (`'%0*x' % (width, u)` cut to `width`). */
  function HexDigits(u: nat, width: nat): (r: string)
    ensures |r| == width && AllHex(r)
  {
    if width == 0 then [] else HexDigits(u / 16, width - 1) + [HexChar(u % 16)]
  }

  /** `uuid.UUID(int=u).hex`: the 32 hex digits of the 128-bit value. */
  function UuidHex(u: nat): string {
    HexDigits(u, 32)
  }

  /** `new_event_id()` for clock reading `ms` and UUID value `u`. */
  function NewEventId(ms: nat, u: nat): string {
    NatToString(ms) + "-" + UuidHex(u)[..8]
  }

  lemma NoDashInDigits(s: string)
    requires AllDigits(s) || AllHex(s)
    ensures '-' !in s
  {
    assert forall i :: 0 <= i < |s| ==> s[i] != '-';
  }

  /**
   * An event id is the decimal clock reading, one `-`, then eight lowercase
   * hex digits, the leading ones of the UUID's.
   */
  lemma EventIdShape(ms: nat, u: nat)
    ensures var r := NewEventId(ms, u); var n := |NatToString(ms)|;
      && |r| == n + 9
      && r[..n] == NatToString(ms) && r[n + 1..] == UuidHex(u)[..8]
      && AllHex(r[n + 1..])
      && (forall i :: 0 <= i < |r| ==> (r[i] == '-' <==> i == n))
  {
    var d, h := NatToString(ms), UuidHex(u)[..8];
    var r := NewEventId(ms, u);
    assert r == d + "-" + h;
    NoDashInDigits(d);
    NoDashInDigits(h);
    forall i | 0 <= i < |r| ensures r[i] == '-' <==> i == |d| {
      if i < |d| {
        assert r[i] == d[i] && d[i] in d;
      } else if i > |d| {
        assert r[i] == h[i - |d| - 1] && h[i - |d| - 1] in h;
      }
    }
  }

  /** `id.split("-")` gives the decimal clock reading and the hex suffix back, and the first part reads back as the clock value. */
  lemma EventIdSplits(ms: nat, u: nat)
    ensures var parts := Split(NewEventId(ms, u), '-');
      && parts == [NatToString(ms), UuidHex(u)[..8]]
      && AllDigits(parts[0]) && DigitsValue(parts[0]) == ms
  {
    var d, h := NatToString(ms), UuidHex(u)[..8];
    NoDashInDigits(d);
    NoDashInDigits(h);
    assert Join(['-'], [d, h]) == NewEventId(ms, u) by {
      assert Join(['-'], [h]) == h;
    }
    SplitJoin([d, h], '-');
    DigitsOfNat(ms);
  }

  /** An event id needs no escaping on an `id:` line: no line break and no surrounding whitespace. */
  lemma EventIdIsClean(ms: nat, u: nat)
    ensures NoLineBreaks(NewEventId(ms, u)) && IsStripped(NewEventId(ms, u))
  {
    var r := NewEventId(ms, u);
    var n := |NatToString(ms)|;
    EventIdShape(ms, u);
    forall i | 0 <= i < |r| ensures !IsSpace(r[i]) {
      if i < n {
        assert r[i] == NatToString(ms)[i];
      } else if i > n {
        assert r[i] == r[n + 1..][i - n - 1];
      }
    }
  }
}
