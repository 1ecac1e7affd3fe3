/** UUIDv7 generation (RFC 9562, section 5.7, with the counter of section 6.2, Method 1). */
module Uuid {
  import opened Texts
  import opened Json

  newtype byte = b: int | 0 <= b < 256

  const TWO_48: nat := 0x1_0000_0000_0000
  const HYPHEN: CodeUnit := 0x2D

  /** The module state: `lastMillis` starts at -1. */
  datatype Clock = Clock(lastMillis: int, counter: nat)

  const INITIAL := Clock(-1, 0)

  predicate ValidClock(c: Clock) {
    -1 <= c.lastMillis && c.counter <= 0xFFF && (c.lastMillis == -1 ==> c.counter == 0)
  }

  /** The logical clock after one call that read `now`. */
  function Tick(c: Clock, now: nat): Clock {
    if now > c.lastMillis then Clock(now, 0)
    else if c.counter + 1 > 0xFFF then Clock(c.lastMillis + 1, 0)
    else Clock(c.lastMillis, c.counter + 1)
  }

  /** Timestamp, version and counter read as one number: the first eight bytes of the id. */
  function Prefix(c: Clock): int {
    c.lastMillis * 0x1_0000 + 0x7000 + c.counter
  }

  // ---------------------------------------------------------------- bytes and text

  /** `n` modulo 256^len as `len` bytes, most significant first. */
  function BigEndian(n: nat, len: nat): (r: seq<byte>)
    ensures |r| == len
  {
    if len == 0 then [] else BigEndian(n / 256, len - 1) + [(n % 256) as byte]
  }

  function HexByte(b: byte): Text {
    [HexDigit((b / 16) as CodeUnit), HexDigit((b % 16) as CodeUnit)]
  }

  predicate HyphenBefore(i: nat) {
    i == 4 || i == 6 || i == 8 || i == 10
  }

  /** The hyphenated text of the bytes from index `i` on. */
  function FormatFrom(bytes: seq<byte>, i: nat): Text
    requires i <= |bytes|
    decreases |bytes| - i
  {
    if i == |bytes| then []
    else (if HyphenBefore(i) then [HYPHEN] else []) + HexByte(bytes[i]) + FormatFrom(bytes, i + 1)
  }

  /** The sixteen bytes of an id: eight fixed by the logical clock, eight random but for the variant bits. */
  function IdBytes(c: Clock, random: seq<byte>): (r: seq<byte>)
    requires ValidClock(c) && c.lastMillis >= 0 && |random| == 16
    ensures |r| == 16
  {
    BigEndian(Prefix(c), 8) + [0x80 + random[8] % 64] + random[9..]
  }

  function IdText(c: Clock, random: seq<byte>): Text
    requires ValidClock(c) && c.lastMillis >= 0 && |random| == 16
  {
    FormatFrom(IdBytes(c, random), 0)
  }

  predicate IsHex(u: CodeUnit) {
    0x30 <= u <= 0x39 || 0x61 <= u <= 0x66 || 0x41 <= u <= 0x46
  }

  /** `UUID_RE`: 8-4-4-4-12 hexadecimal digits, the variant digit one of 8, 9, a, b. */
  predicate IsUuid(t: Text) {
    && |t| == 36
    && (forall i :: 0 <= i < 36 ==> if i == 8 || i == 13 || i == 18 || i == 23 then t[i] == HYPHEN else IsHex(t[i]))
    && (t[19] == 0x38 || t[19] == 0x39 || t[19] == 0x61 || t[19] == 0x62 || t[19] == 0x41 || t[19] == 0x42)
  }

  /** The concatenation at the end of `uuidv7`. */
  function Format(b: seq<byte>): (id: Text)
    requires |b| == 16
    ensures id == FormatFrom(b, 0)
  {
    FormatUnrolled(b);
    HexByte(b[0]) + HexByte(b[1]) + HexByte(b[2]) + HexByte(b[3]) + [HYPHEN] +
    HexByte(b[4]) + HexByte(b[5]) + [HYPHEN] +
    HexByte(b[6]) + HexByte(b[7]) + [HYPHEN] +
    HexByte(b[8]) + HexByte(b[9]) + [HYPHEN] +
    HexByte(b[10]) + HexByte(b[11]) + HexByte(b[12]) + HexByte(b[13]) + HexByte(b[14]) + HexByte(b[15])
  }

  lemma Accumulate(t: Text, b: seq<byte>, i: nat)
    requires i < |b|
    ensures t + FormatFrom(b, i) == (if HyphenBefore(i) then t + [HYPHEN] else t) + HexByte(b[i]) + FormatFrom(b, i + 1)
  {
  }

  lemma FormatUnrolled(b: seq<byte>)
    requires |b| == 16
    ensures FormatFrom(b, 0) ==
            HexByte(b[0]) + HexByte(b[1]) + HexByte(b[2]) + HexByte(b[3]) + [HYPHEN] +
            HexByte(b[4]) + HexByte(b[5]) + [HYPHEN] +
            HexByte(b[6]) + HexByte(b[7]) + [HYPHEN] +
            HexByte(b[8]) + HexByte(b[9]) + [HYPHEN] +
            HexByte(b[10]) + HexByte(b[11]) + HexByte(b[12]) + HexByte(b[13]) + HexByte(b[14]) + HexByte(b[15])
  {
    var t := HexByte(b[0]);
    Accumulate([], b, 0);
    assert [] + HexByte(b[0]) == t;
    Accumulate(t, b, 1);
    t := t + HexByte(b[1]);
    Accumulate(t, b, 2);
    t := t + HexByte(b[2]);
    Accumulate(t, b, 3);
    t := t + HexByte(b[3]);
    Accumulate(t, b, 4);
    t := t + [HYPHEN] + HexByte(b[4]);
    Accumulate(t, b, 5);
    t := t + HexByte(b[5]);
    Accumulate(t, b, 6);
    t := t + [HYPHEN] + HexByte(b[6]);
    Accumulate(t, b, 7);
    t := t + HexByte(b[7]);
    Accumulate(t, b, 8);
    t := t + [HYPHEN] + HexByte(b[8]);
    Accumulate(t, b, 9);
    t := t + HexByte(b[9]);
    Accumulate(t, b, 10);
    t := t + [HYPHEN] + HexByte(b[10]);
    Accumulate(t, b, 11);
    t := t + HexByte(b[11]);
    Accumulate(t, b, 12);
    t := t + HexByte(b[12]);
    Accumulate(t, b, 13);
    t := t + HexByte(b[13]);
    Accumulate(t, b, 14);
    t := t + HexByte(b[14]);
    Accumulate(t, b, 15);
    t := t + HexByte(b[15]);
    assert t + FormatFrom(b, 16) == t;
  }

  class UuidGenerator {
    var lastMillis: int
    var counter: nat

    ghost predicate Valid() reads this { ValidClock(State()) }

    ghost function State(): Clock reads this { Clock(lastMillis, counter) }

    constructor ()
      ensures Valid() && State() == INITIAL
    {
      lastMillis, counter := -1, 0;
    }

    /** `uuidv7()` when `Date.now()` reads `now` and `randomFillSync` fills in `random`. */
    method Next(now: nat, random: seq<byte>) returns (id: Text)
      requires Valid() && |random| == 16
      modifies this
      ensures Valid() && State() == Tick(old(State()), now)
      ensures id == IdText(State(), random)
    {
      var bytes := new byte[16](i requires 0 <= i < 16 => random[i]);
      var timestamp: int := now;
      if timestamp > lastMillis {
        lastMillis := timestamp;
        counter := 0;
      } else {
        counter := counter + 1;
        if counter > 0x0FFF {
          lastMillis := lastMillis + 1;
          counter := 0;
        }
        timestamp := lastMillis;
      }
      WriteFields(bytes, timestamp, counter);
      assert bytes[..] == IdBytes(State(), random);
      id := Format(bytes[..]);
    }
  }

  /** The nine byte assignments of `uuidv7`, made in place over the random bytes. */
  method WriteFields(bytes: array<byte>, timestamp: nat, counter: nat)
    requires bytes.Length == 16 && counter <= 0xFFF
    modifies bytes
    ensures bytes[..] == IdBytes(Clock(timestamp, counter), old(bytes[..]))
  {
    ghost var filled := bytes[..];
    bytes[0] := (timestamp / 0x100_0000_0000 % 256) as byte;
    bytes[1] := (timestamp / 0x1_0000_0000 % 256) as byte;
    bytes[2] := (timestamp / 0x100_0000 % 256) as byte;
    bytes[3] := (timestamp / 0x1_0000 % 256) as byte;
    bytes[4] := (timestamp / 0x100 % 256) as byte;
    bytes[5] := (timestamp % 256) as byte;
    bytes[6] := (0x70 + counter / 256 % 16) as byte;
    bytes[7] := (counter % 256) as byte;
    bytes[8] := bytes[8] % 64 + 0x80;
    TimestampBytes(timestamp);
    PrefixBytes(Clock(timestamp, counter));
    var prefix := BigEndian(Prefix(Clock(timestamp, counter)), 8);
    assert bytes[8] == 0x80 + filled[8] % 64;
    assert bytes[..8] == prefix;
    assert bytes[9..] == filled[9..];
    assert bytes[..] == bytes[..8] + [bytes[8]] + bytes[9..];
  }

  // ---------------------------------------------------------------- the bytes written in place

  lemma BigEndianStep(n: nat, len: nat)
    requires len > 0
    ensures BigEndian(n, len) == BigEndian(n / 256, len - 1) + [(n % 256) as byte]
  {
  }

  /** Six timestamp bytes. */
  lemma TimestampBytes(t: nat)
    ensures BigEndian(t, 6) == [(t / 0x100_0000_0000 % 256) as byte, (t / 0x1_0000_0000 % 256) as byte,
                                (t / 0x100_0000 % 256) as byte, (t / 0x1_0000 % 256) as byte,
                                (t / 0x100 % 256) as byte, (t % 256) as byte]
  {
    BigEndianStep(t, 6);
    BigEndianStep(t / 0x100, 5);
    BigEndianStep(t / 0x1_0000, 4);
    BigEndianStep(t / 0x100_0000, 3);
    BigEndianStep(t / 0x1_0000_0000, 2);
    BigEndianStep(t / 0x100_0000_0000, 1);
    assert t / 0x100 / 256 == t / 0x1_0000;
    assert t / 0x1_0000 / 256 == t / 0x100_0000;
    assert t / 0x100_0000 / 256 == t / 0x1_0000_0000;
    assert t / 0x1_0000_0000 / 256 == t / 0x100_0000_0000;
  }

  lemma PrefixBytes(c: Clock)
    requires ValidClock(c) && c.lastMillis >= 0
    ensures BigEndian(Prefix(c), 8) ==
            BigEndian(c.lastMillis, 6) + [(0x70 + c.counter / 256 % 16) as byte, (c.counter % 256) as byte]
  {
    var n := Prefix(c);
    BigEndianStep(n, 8);
    BigEndianStep(n / 256, 7);
    assert n / 256 == c.lastMillis * 256 + 0x70 + c.counter / 256;
    assert n / 256 / 256 == c.lastMillis;
    assert n / 256 % 256 == 0x70 + c.counter / 256;
    assert n % 256 == c.counter % 256;
  }

  // ---------------------------------------------------------------- order

  function Pow256(len: nat): nat {
    if len == 0 then 1 else 256 * Pow256(len - 1)
  }

  /** Big-endian bytes compare as the numbers do: some byte is the first to differ, and it is smaller. */
  lemma {:induction false} BigEndianOrder(n: nat, m: nat, len: nat) returns (k: nat)
    requires n < m < Pow256(len)
    ensures k < len
    ensures BigEndian(n, len)[..k] == BigEndian(m, len)[..k] && BigEndian(n, len)[k] < BigEndian(m, len)[k]
  {
    if n / 256 < m / 256 {
      k := BigEndianOrder(n / 256, m / 256, len - 1);
      assert BigEndian(n, len)[..k] == BigEndian(n / 256, len - 1)[..k];
      assert BigEndian(m, len)[..k] == BigEndian(m / 256, len - 1)[..k];
    } else {
      k := len - 1;
      assert BigEndian(n, len)[..k] == BigEndian(n / 256, len - 1);
      assert BigEndian(m, len)[..k] == BigEndian(m / 256, len - 1);
    }
  }

  /** Only the low bytes are written. */
  lemma {:induction false} BigEndianWraps(n: nat, len: nat)
    ensures BigEndian(n + Pow256(len), len) == BigEndian(n, len)
  {
    if len > 0 {
      assert (n + Pow256(len)) / 256 == n / 256 + Pow256(len - 1);
      BigEndianWraps(n / 256, len - 1);
    }
  }

  lemma HexByteOrder(x: byte, y: byte)
    requires x < y
    ensures Less(HexByte(x), HexByte(y))
  {
    var a, b := HexByte(x), HexByte(y);
    if x / 16 == y / 16 {
      assert x % 16 < y % 16;
      assert Less(a[1..], b[1..]);
    }
  }

  lemma {:induction false} FormatOrder(a: seq<byte>, b: seq<byte>, i: nat, k: nat)
    requires i <= k < |a| == |b|
    requires (forall j :: i <= j < k ==> a[j] == b[j]) && a[k] < b[k]
    ensures Less(FormatFrom(a, i), FormatFrom(b, i))
    decreases k - i
  {
    if i == k {
      FormatFirstDiff(a, b, i);
    } else {
      FormatOrder(a, b, i + 1, k);
      FormatSameHead(a, b, i);
    }
  }

  lemma FormatFirstDiff(a: seq<byte>, b: seq<byte>, i: nat)
    requires i < |a| == |b| && a[i] < b[i]
    ensures Less(FormatFrom(a, i), FormatFrom(b, i))
  {
    var hyphen := if HyphenBefore(i) then [HYPHEN] else [];
    var x, y := FormatFrom(a, i + 1), FormatFrom(b, i + 1);
    HexByteOrder(a[i], b[i]);
    LessBeforeSuffix(HexByte(a[i]), HexByte(b[i]), x, y);
    LessAfterPrefix(hyphen, HexByte(a[i]) + x, HexByte(b[i]) + y);
    FormatStep(a, i);
    FormatStep(b, i);
  }

  lemma FormatSameHead(a: seq<byte>, b: seq<byte>, i: nat)
    requires i < |a| == |b| && a[i] == b[i] && Less(FormatFrom(a, i + 1), FormatFrom(b, i + 1))
    ensures Less(FormatFrom(a, i), FormatFrom(b, i))
  {
    var hyphen := if HyphenBefore(i) then [HYPHEN] else [];
    var x, y := FormatFrom(a, i + 1), FormatFrom(b, i + 1);
    LessAfterPrefix(HexByte(a[i]), x, y);
    LessAfterPrefix(hyphen, HexByte(a[i]) + x, HexByte(b[i]) + y);
    FormatStep(a, i);
    FormatStep(b, i);
  }

  lemma FormatStep(a: seq<byte>, i: nat)
    requires i < |a|
    ensures FormatFrom(a, i) == (if HyphenBefore(i) then [HYPHEN] else []) + (HexByte(a[i]) + FormatFrom(a, i + 1))
  {
  }

  /** Ids compare as their logical clocks do, whatever the random bytes. */
  lemma IdOrder(c: Clock, r: seq<byte>, c': Clock, r': seq<byte>)
    requires ValidClock(c) && ValidClock(c') && 0 <= c.lastMillis && |r| == 16 && |r'| == 16
    requires Prefix(c) < Prefix(c') && c'.lastMillis < TWO_48
    ensures Less(IdText(c, r), IdText(c', r'))
  {
    assert Pow256(8) == TWO_48 * 0x1_0000 by {
      assert Pow256(4) == 0x1_0000_0000;
    }
    var k := BigEndianOrder(Prefix(c), Prefix(c'), 8);
    var a, b := IdBytes(c, r), IdBytes(c', r');
    assert a[..8] == BigEndian(Prefix(c), 8) && b[..8] == BigEndian(Prefix(c'), 8);
    forall j | 0 <= j < k ensures a[j] == b[j] {
      assert BigEndian(Prefix(c), 8)[..k][j] == BigEndian(Prefix(c'), 8)[..k][j];
    }
    FormatOrder(a, b, 0, k);
  }

  lemma TickAdvances(c: Clock, now: nat)
    requires ValidClock(c)
    ensures ValidClock(Tick(c, now)) && Tick(c, now).lastMillis >= 0
    ensures c.lastMillis >= 0 ==> Prefix(c) < Prefix(Tick(c, now))
  {
  }

  /**
   The next id is greater than the last one exactly as long as the logical clock fits the 48-bit field:
   repeated readings, readings that step back and counter overflow all keep the order.
   */
  lemma NextGreaterIff(c: Clock, r: seq<byte>, now: nat, r': seq<byte>)
    requires ValidClock(c) && 0 <= c.lastMillis < TWO_48 && now < TWO_48 && |r| == 16 && |r'| == 16
    ensures Less(IdText(c, r), IdText(Tick(c, now), r')) <==> Tick(c, now).lastMillis < TWO_48
  {
    var c' := Tick(c, now);
    if c'.lastMillis < TWO_48 {
      TickAdvances(c, now);
      IdOrder(c, r, c', r');
    } else {
      assert c'.lastMillis == TWO_48 && c'.counter == 0;
      var zero := Clock(0, 0);
      OverflowWraps(r');
      IdOrder(zero, r', c, r);
      LessAsymmetric(IdText(zero, r'), IdText(c, r));
    }
  }

  // ---------------------------------------------------------------- shape

  /** Where the text of byte `i` starts, its hyphen included. */
  function Position(i: nat): nat {
    2 * i + (if i > 4 then 1 else 0) + (if i > 6 then 1 else 0) + (if i > 8 then 1 else 0) + (if i > 10 then 1 else 0)
  }

  predicate MatchesV7(u: CodeUnit, position: nat) {
    if position == 8 || position == 13 || position == 18 || position == 23 then u == HYPHEN
    else if position == 14 then u == 0x37
    else if position == 19 then u == 0x38 || u == 0x39 || u == 0x61 || u == 0x62
    else IsHex(u)
  }

  lemma {:induction false} FormatMatches(b: seq<byte>, i: nat)
    requires |b| == 16 && i <= 16 && b[6] / 16 == 7 && 8 <= b[8] / 16 < 12
    ensures |FormatFrom(b, i)| == 36 - Position(i)
    ensures forall j :: 0 <= j < |FormatFrom(b, i)| ==> MatchesV7(FormatFrom(b, i)[j], Position(i) + j)
    decreases 16 - i
  {
    if i < 16 {
      FormatMatches(b, i + 1);
      var head := (if HyphenBefore(i) then [HYPHEN] else []) + HexByte(b[i]);
      assert FormatFrom(b, i) == head + FormatFrom(b, i + 1);
      assert Position(i + 1) == Position(i) + |head|;
      forall j | 0 <= j < |FormatFrom(b, i)| ensures MatchesV7(FormatFrom(b, i)[j], Position(i) + j) {
        if j < |head| {
          assert FormatFrom(b, i)[j] == head[j];
        } else {
          assert FormatFrom(b, i)[j] == FormatFrom(b, i + 1)[j - |head|];
        }
      }
    }
  }

  /** Every id matches the UUID pattern and carries version 7, whatever the clock and the random bytes. */
  lemma IdIsUuidV7(c: Clock, random: seq<byte>)
    requires ValidClock(c) && c.lastMillis >= 0 && |random| == 16
    ensures IsUuid(IdText(c, random)) && IdText(c, random)[14] == 0x37
  {
    var b := IdBytes(c, random);
    PrefixBytes(c);
    assert b[6] == BigEndian(Prefix(c), 8)[6] == (0x70 + c.counter / 256 % 16) as byte;
    assert b[8] == 0x80 + random[8] % 64;
    FormatMatches(b, 0);
    var t := IdText(c, random);
    assert forall j :: 0 <= j < 36 ==> MatchesV7(t[j], j);
  }

  // ---------------------------------------------------------------- whole runs

  datatype Call = Call(now: nat, random: seq<byte>)

  predicate ValidCalls(calls: seq<Call>) {
    forall i :: 0 <= i < |calls| ==> |calls[i].random| == 16
  }

  /** The logical clock after the first `n` calls of a process. */
  function ClockAfter(calls: seq<Call>, n: nat): (c: Clock)
    requires n <= |calls|
    ensures ValidClock(c) && (n > 0 ==> c.lastMillis >= 0)
  {
    if n == 0 then INITIAL else Tick(ClockAfter(calls, n - 1), calls[n - 1].now)
  }

  /** The id the `n`-th call (from 1) returns. */
  function IdOf(calls: seq<Call>, n: nat): Text
    requires ValidCalls(calls) && 0 < n <= |calls|
  {
    IdText(ClockAfter(calls, n), calls[n - 1].random)
  }

  /** 4096 ids a millisecond: the logical clock runs ahead of the readings by one ms per 4096 calls at most. */
  lemma {:induction false} ClockBound(calls: seq<Call>, n: nat, latest: nat)
    requires 0 < n <= |calls| && forall i :: 0 <= i < n ==> calls[i].now <= latest
    ensures ClockAfter(calls, n).lastMillis * 4096 + ClockAfter(calls, n).counter <= latest * 4096 + n - 1
  {
    if n > 1 {
      ClockBound(calls, n - 1, latest);
    }
  }

  lemma {:induction false} PrefixGrows(calls: seq<Call>, i: nat, j: nat)
    requires 0 < i < j <= |calls|
    ensures Prefix(ClockAfter(calls, i)) < Prefix(ClockAfter(calls, j))
  {
    TickAdvances(ClockAfter(calls, j - 1), calls[j - 1].now);
    if i < j - 1 {
      PrefixGrows(calls, i, j - 1);
    }
  }

  /**
   In every run whose readings leave room for one millisecond per 4096 calls below the 48-bit bound, every
   later id is lexicographically greater than every earlier one.
   */
  lemma IdsStrictlyIncrease(calls: seq<Call>, latest: nat, i: nat, j: nat)
    requires ValidCalls(calls) && 0 < i < j <= |calls|
    requires forall k :: 0 <= k < |calls| ==> calls[k].now <= latest
    requires latest + (|calls| - 1) / 4096 < TWO_48
    ensures Less(IdOf(calls, i), IdOf(calls, j))
  {
    PrefixGrows(calls, i, j);
    ClockBound(calls, j, latest);
    IdOrder(ClockAfter(calls, i), calls[i - 1].random, ClockAfter(calls, j), calls[j - 1].random);
  }

  lemma {:induction false} ClockNeverFalls(calls: seq<Call>, i: nat, j: nat)
    requires 0 < i <= j <= |calls|
    ensures ClockAfter(calls, i).lastMillis <= ClockAfter(calls, j).lastMillis
  {
    if i < j {
      ClockNeverFalls(calls, i, j - 1);
    }
  }

  lemma FirstClock(calls: seq<Call>)
    requires |calls| > 0
    ensures ClockAfter(calls, 1) == Clock(calls[0].now, 0)
  {
    assert ClockAfter(calls, 1) == Tick(ClockAfter(calls, 0), calls[0].now);
  }

  /** The call with which the logical clock leaves the 48 bits; the one before it still fits. */
  lemma {:induction false} FirstOverflow(calls: seq<Call>, n: nat) returns (m: nat)
    requires 0 < n <= |calls| && ClockAfter(calls, n).lastMillis >= TWO_48
    requires forall k :: 0 <= k < |calls| ==> calls[k].now < TWO_48
    ensures 1 < m <= n && ClockAfter(calls, m - 1).lastMillis < TWO_48 <= ClockAfter(calls, m).lastMillis
  {
    FirstClock(calls);
    m := n;
    if ClockAfter(calls, n - 1).lastMillis >= TWO_48 {
      m := FirstOverflow(calls, n - 1);
    }
  }

  /**
   For any run of readings below 2^48: all ids strictly increase exactly when the logical clock still fits 48
   bits after the last call.
  */
  lemma IdsIncreaseIff(calls: seq<Call>)
    requires ValidCalls(calls) && |calls| > 0 && forall k :: 0 <= k < |calls| ==> calls[k].now < TWO_48
    ensures (forall i, j :: 0 < i < j <= |calls| ==> Less(IdOf(calls, i), IdOf(calls, j)))
       <==> ClockAfter(calls, |calls|).lastMillis < TWO_48
  {
    if ClockAfter(calls, |calls|).lastMillis < TWO_48 {
      forall i, j | 0 < i < j <= |calls| ensures Less(IdOf(calls, i), IdOf(calls, j)) {
        PrefixGrows(calls, i, j);
        ClockNeverFalls(calls, j, |calls|);
        IdOrder(ClockAfter(calls, i), calls[i - 1].random, ClockAfter(calls, j), calls[j - 1].random);
      }
    } else {
      var m := FirstOverflow(calls, |calls|);
      NextGreaterIff(ClockAfter(calls, m - 1), calls[m - 2].random, calls[m - 1].now, calls[m - 1].random);
      assert !Less(IdOf(calls, m - 1), IdOf(calls, m));
    }
  }

  lemma {:induction false} BurstClock(calls: seq<Call>, now: nat, n: nat)
    requires 0 < n <= |calls| && n <= 4096 && forall k :: 0 <= k < |calls| ==> calls[k].now == now
    ensures ClockAfter(calls, n) == Clock(now, n - 1)
  {
    if n > 1 {
      BurstClock(calls, now, n - 1);
    } else {
      FirstClock(calls);
    }
  }

  /** Such a run: 4097 calls in the last millisecond the field can hold. The last id is smaller than the one before it. */
  lemma LastMillisecondRegresses(calls: seq<Call>)
    requires ValidCalls(calls) && |calls| == 4097 && forall k :: 0 <= k < |calls| ==> calls[k].now == TWO_48 - 1
    ensures Less(IdOf(calls, 4097), IdOf(calls, 4096))
  {
    BurstClock(calls, TWO_48 - 1, 4096);
    var last, zero := Clock(TWO_48 - 1, 0xFFF), Clock(0, 0);
    assert ClockAfter(calls, 4097) == Tick(ClockAfter(calls, 4096), calls[4096].now) == Clock(TWO_48, 0);
    OverflowWraps(calls[4096].random);
    IdOrder(zero, calls[4096].random, last, calls[4095].random);
  }

  /** One millisecond past the field reads as the first millisecond of 1970. */
  lemma OverflowWraps(random: seq<byte>)
    requires |random| == 16
    ensures IdText(Clock(TWO_48, 0), random) == IdText(Clock(0, 0), random)
  {
    var zero := Clock(0, 0);
    assert Prefix(Clock(TWO_48, 0)) == Prefix(zero) + Pow256(8) by {
      assert Pow256(4) == 0x1_0000_0000;
    }
    BigEndianWraps(Prefix(zero), 8);
  }

  // ---------------------------------------------------------------- the layout of RFC 9562

  lemma IdParts(c: Clock, random: seq<byte>)
    requires ValidClock(c) && c.lastMillis >= 0 && |random| == 16
    ensures var b := IdBytes(c, random);
            && b[..6] == BigEndian(c.lastMillis, 6)
            && b[6] == (0x70 + c.counter / 256) as byte && b[7] == (c.counter % 256) as byte
            && b[8] == 0x80 + random[8] % 64 && b[9..] == random[9..]
  {
    PrefixBytes(c);
    var b, six, eight := IdBytes(c, random), BigEndian(c.lastMillis, 6), BigEndian(Prefix(c), 8);
    assert b[..8] == eight;
    assert b[6] == eight[6] && b[7] == eight[7];
    assert b[..6] == eight[..6] == six;
  }

  lemma SixBytes(b: seq<byte>, t: nat)
    requires |b| == 16 && b[..6] == BigEndian(t, 6)
    ensures b[0] == (t / 0x100_0000_0000 % 256) as byte && b[1] == (t / 0x1_0000_0000 % 256) as byte
    ensures b[2] == (t / 0x100_0000 % 256) as byte && b[3] == (t / 0x1_0000 % 256) as byte
    ensures b[4] == (t / 0x100 % 256) as byte && b[5] == (t % 256) as byte
  {
    TimestampBytes(t);
    var six := b[..6];
    assert b[0] == six[0] && b[1] == six[1] && b[2] == six[2] && b[3] == six[3] && b[4] == six[4] && b[5] == six[5];
  }

  lemma TimeDigits(t: nat)
    requires t < TWO_48
    ensures t == t / 0x100_0000_0000 % 256 * 0x100_0000_0000 + t / 0x1_0000_0000 % 256 * 0x1_0000_0000
               + t / 0x100_0000 % 256 * 0x100_0000 + t / 0x1_0000 % 256 * 0x1_0000 + t / 0x100 % 256 * 0x100 + t % 256
  {
    var a := t / 0x100;
    var b := a / 0x100;
    var c := b / 0x100;
    var d := c / 0x100;
    var e := d / 0x100;
    assert b == t / 0x1_0000;
    assert c == t / 0x100_0000;
    assert d == t / 0x1_0000_0000;
    assert e == t / 0x100_0000_0000;
  }

  /**
   The sixteen bytes by the fields of RFC 9562, section 5.7: 48 bits of time, the version 7 and a twelve-bit counter,
   the variant, and the caller's random bits in the 62 that are left.
   */
  lemma IdFields(c: Clock, random: seq<byte>)
    requires ValidClock(c) && 0 <= c.lastMillis < TWO_48 && |random| == 16
    ensures var b := IdBytes(c, random);
            && c.lastMillis == b[0] as int * 0x100_0000_0000 + b[1] as int * 0x1_0000_0000 + b[2] as int * 0x100_0000
                             + b[3] as int * 0x1_0000 + b[4] as int * 0x100 + b[5] as int
            && b[6] as int / 16 == 7 && c.counter == b[6] as int % 16 * 256 + b[7] as int
            && b[8] as int / 64 == 2 && b[8] % 64 == random[8] % 64
            && b[9..] == random[9..]
  {
    TimeDigits(c.lastMillis);
    IdParts(c, random);
    SixBytes(IdBytes(c, random), c.lastMillis);
  }

  /** Where byte `k` is in the text: after two digits for each byte before it, and the hyphens so far. */
  function DigitIndex(k: nat): nat {
    2 * k + (if k < 4 then 0 else if k < 6 then 1 else if k < 8 then 2 else if k < 10 then 3 else 4)
  }

  predicate SpelledAt(t: Text, at: int, b: byte) {
    0 <= at && at + 1 < |t| && t[at] == HEX_DIGITS[b / 16] && t[at + 1] == HEX_DIGITS[b % 16]
  }

  lemma {:induction false} FormatSpells(b: seq<byte>, i: nat, k: nat)
    requires |b| == 16 && i <= k < 16
    ensures SpelledAt(FormatFrom(b, i), DigitIndex(k) - Position(i), b[k])
    decreases k - i
  {
    var head := (if HyphenBefore(i) then [HYPHEN] else []) + HexByte(b[i]);
    assert FormatFrom(b, i) == head + FormatFrom(b, i + 1);
    if i < k {
      FormatSpells(b, i + 1, k);
    } else {
      HexDigitSpelled((b[i] / 16) as CodeUnit);
      HexDigitSpelled((b[i] % 16) as CodeUnit);
      assert FormatFrom(b, i)[|head| - 2] == head[|head| - 2] && FormatFrom(b, i)[|head| - 1] == head[|head| - 1];
    }
  }

  /** The text spells every byte, in order, in two lower-case hexadecimal digits. */
  lemma IdSpelled(c: Clock, random: seq<byte>, k: nat)
    requires ValidClock(c) && c.lastMillis >= 0 && |random| == 16 && k < 16
    ensures SpelledAt(IdText(c, random), DigitIndex(k), IdBytes(c, random)[k])
  {
    FormatSpells(IdBytes(c, random), 0, k);
  }
}
