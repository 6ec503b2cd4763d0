/** Bytes on the wire: parse results, fixed-width and variable byte integers,
    UTF-8 text and binary data (integers.rs, strings.rs, bytes.rs, write.rs). */
module Wire {

  type byte = x: int | 0 <= x < 256
  type bytes = seq<byte>

  datatype Option<+T> = None | Some(value: T)

  /** The outcome of a parser on complete input: a value and the unread input, or a
      failure. */
  datatype Parse<+T> = Fail | Ok(value: T, rest: bytes) {
    predicate IsFailure() {
      Fail?
    }

    function PropagateFailure<U>(): Parse<U>
      requires Fail?
    {
      Fail
    }

    function Extract(): (T, bytes)
      requires Ok?
    {
      (value, rest)
    }
  }

  lemma Associate(a: bytes, b: bytes, c: bytes)
    ensures (a + b) + c == a + (b + c)
  {
  }

  // ---------------------------------------------------------------- fixed width

  function ParseU8(s: bytes): Parse<byte> {
    if s == [] then Fail else Ok(s[0], s[1..])
  }

  function EncodeU16(n: nat): bytes {
    [(n / 256) % 256, n % 256]
  }

  function ParseU16(s: bytes): Parse<nat> {
    if |s| < 2 then Fail
    else
      var hi: nat := s[0];
      Ok(hi * 256 + s[1], s[2..])
  }

  function ParseU16NonZero(s: bytes): Parse<nat> {
    var (n, r) :- ParseU16(s);
    if n == 0 then Fail else Ok(n, r)
  }

  function EncodeU32(n: nat): bytes {
    EncodeU16(n / 0x1_0000) + EncodeU16(n % 0x1_0000)
  }

  function ParseU32(s: bytes): Parse<nat> {
    var (hi, r) :- ParseU16(s);
    var (lo, r2) :- ParseU16(r);
    Ok(hi * 0x1_0000 + lo, r2)
  }

  lemma U16RoundTrip(n: nat, r: bytes)
    requires n < 0x1_0000
    ensures ParseU16(EncodeU16(n) + r) == Ok(n, r)
  {
    assert (EncodeU16(n) + r)[2..] == r;
  }

  lemma U16Exact(s: bytes)
    requires ParseU16(s).Ok?
    ensures var p := ParseU16(s); p.value < 0x1_0000 && s == EncodeU16(p.value) + p.rest
  {
    assert s == s[..2] + s[2..];
  }

  lemma U32RoundTrip(n: nat, r: bytes)
    requires n < 0x1_0000_0000
    ensures ParseU32(EncodeU32(n) + r) == Ok(n, r)
  {
    hide ParseU16, EncodeU16;
    Associate(EncodeU16(n / 0x1_0000), EncodeU16(n % 0x1_0000), r);
    U16RoundTrip(n / 0x1_0000, EncodeU16(n % 0x1_0000) + r);
    U16RoundTrip(n % 0x1_0000, r);
  }

  // ------------------------------------------------------ variable byte integer

  const VARIABLE_INTEGER_MAX := 268_435_455

  /** The outcome on partial input, where more bytes may still arrive. */
  datatype Partial<+T> = Incomplete | Error | Done(value: T, rest: bytes)

  predicate Continues(b: byte) {
    b >= 128
  }

  function Low7(b: byte): (n: nat)
    ensures n < 128
  {
    b % 128
  }

  /** Number of leading bytes with the continuation bit, at most `most`. */
  function FrontCount(s: bytes, most: nat): (k: nat)
    ensures k <= |s| && k <= most
    ensures forall i :: 0 <= i < k ==> Continues(s[i])
    ensures k < |s| && k < most ==> !Continues(s[k])
  {
    if s == [] || most == 0 || !Continues(s[0]) then 0 else 1 + FrontCount(s[1..], most - 1)
  }

  function Pow128(k: nat): (p: nat)
    ensures p >= 1
  {
    if k == 0 then 1 else 128 * Pow128(k - 1)
  }

  /** Seven bits per byte, least significant group first. */
  function VarValue(b: bytes): nat {
    if b == [] then 0 else Low7(b[0]) + 128 * VarValue(b[1..])
  }

  /** parse_variable_u32 on partial input: up to three continuation bytes, then
      exactly one byte without the continuation bit. */
  function ParseVarPartial(s: bytes): Partial<nat> {
    var k := FrontCount(s, 3);
    if k == |s| then Incomplete
    else if Continues(s[k]) then Error
    else Done(VarValue(s[..k + 1]), s[k + 1..])
  }

  /** On complete input a missing byte is a failure like any other. */
  function ParseVar(s: bytes): Parse<nat> {
    match ParseVarPartial(s)
    case Done(v, r) => Ok(v, r)
    case _ => Fail
  }

  /** variable_u32_binary_size; above the maximum the source panics, and every use
      below is guarded by a bound. */
  function VarSize(u: nat): (n: nat)
    ensures 1 <= n <= 4
  {
    if u <= 127 then 1 else if u <= 16383 then 2 else if u <= 2_097_151 then 3 else 4
  }

  lemma PowersOf128()
    ensures Pow128(0) == 1 && Pow128(1) == 128 && Pow128(2) == 16384
    ensures Pow128(3) == 2_097_152 && Pow128(4) == 268_435_456
  {
    assert Pow128(2) == 128 * Pow128(1);
    assert Pow128(3) == 128 * Pow128(2);
  }

  /** write_variable_u32; above the maximum it reports an error and writes nothing. */
  function EncodeVar(u: nat): bytes {
    if u <= 127 then
      [u]
    else if u <= 16383 then
      [u % 128 + 128, u / 128]
    else if u <= 2_097_151 then
      [u % 128 + 128, (u / 128) % 128 + 128, u / 16384]
    else if u <= VARIABLE_INTEGER_MAX then
      [u % 128 + 128, (u / 128) % 128 + 128, (u / 16384) % 128 + 128, u / 2_097_152]
    else
      []
  }

  lemma VarValueUpTo4(e: bytes)
    requires 1 <= |e| <= 4
    ensures VarValue(e) == Low7(e[0])
                           + (if |e| > 1 then 128 * Low7(e[1]) else 0)
                           + (if |e| > 2 then 16384 * Low7(e[2]) else 0)
                           + (if |e| > 3 then 2_097_152 * Low7(e[3]) else 0)
  {
    if |e| > 1 {
      assert VarValue(e[1..]) == Low7(e[1]) + 128 * VarValue(e[1..][1..]);
      assert e[1..][1..] == e[2..];
    }
    if |e| > 2 {
      assert VarValue(e[2..]) == Low7(e[2]) + 128 * VarValue(e[2..][1..]);
      assert e[2..][1..] == e[3..];
    }
  }

  lemma LowOfContinued(n: nat)
    ensures Low7(n % 128 + 128) == n % 128
  {
  }

  lemma LowOfSmall(n: nat)
    requires n < 128
    ensures Low7(n) == n
  {
  }

  lemma EncodeVarShape(u: nat)
    requires u <= VARIABLE_INTEGER_MAX
    ensures |EncodeVar(u)| == VarSize(u)
    ensures forall i :: 0 <= i < VarSize(u) - 1 ==> Continues(EncodeVar(u)[i])
    ensures !Continues(EncodeVar(u)[VarSize(u) - 1])
    ensures VarValue(EncodeVar(u)) == u
  {
    hide VarValue, Low7;
    DigitsOf(u);
    var e := EncodeVar(u);
    VarValueUpTo4(e);
    LowOfContinued(u);
    LowOfContinued(u / 128);
    LowOfContinued(u / 16384);
    if u <= 127 {
      LowOfSmall(u);
    } else if u <= 16383 {
      LowOfSmall(u / 128);
    } else if u <= 2_097_151 {
      LowOfSmall(u / 16384);
    } else {
      LowOfSmall(u / 2_097_152);
    }
  }

  lemma DigitsOf(u: nat)
    ensures u == u % 128 + 128 * (u / 128)
    ensures u / 128 == (u / 128) % 128 + 128 * (u / 16384)
    ensures u / 16384 == (u / 16384) % 128 + 128 * (u / 2_097_152)
  {
  }

  /** Where the front count stops is decided by the bytes up to there. */
  lemma {:induction false} FrontCountIs(s: bytes, most: nat, k: nat)
    requires k <= most && k < |s|
    requires forall i :: 0 <= i < k ==> Continues(s[i])
    requires k == most || !Continues(s[k])
    ensures FrontCount(s, most) == k
  {
    if k == 0 {
    } else {
      FrontCountIs(s[1..], most - 1, k - 1);
    }
  }

  lemma {:induction false} FrontCountAll(s: bytes, most: nat)
    requires |s| <= most
    requires forall i :: 0 <= i < |s| ==> Continues(s[i])
    ensures FrontCount(s, most) == |s|
  {
    if s == [] {
    } else {
      FrontCountAll(s[1..], most - 1);
    }
  }

  /** Parsing inverts writing in front of any suffix (section 1.5.5 of MQTT 5.0). */
  lemma VarRoundTrip(u: nat, r: bytes)
    requires u <= VARIABLE_INTEGER_MAX
    ensures ParseVarPartial(EncodeVar(u) + r) == Done(u, r)
    ensures ParseVar(EncodeVar(u) + r) == Ok(u, r)
  {
    EncodeVarShape(u);
    var k := VarSize(u) - 1;
    var s := EncodeVar(u) + r;
    FrontCountIs(s, 3, k);
    assert s[..k + 1] == EncodeVar(u);
    assert s[k + 1..] == r;
  }

  /** A strict prefix of an encoding asks for more input and is never an error. */
  lemma VarPrefixIncomplete(u: nat, k: nat)
    requires u <= VARIABLE_INTEGER_MAX && k < VarSize(u)
    ensures |EncodeVar(u)| == VarSize(u)
    ensures ParseVarPartial(EncodeVar(u)[..k]).Incomplete?
  {
    EncodeVarShape(u);
    FrontCountAll(EncodeVar(u)[..k], 3);
  }

  /** No encoding is a prefix of another one. */
  lemma VarPrefixFree(u: nat, v: nat)
    requires u <= VARIABLE_INTEGER_MAX && v <= VARIABLE_INTEGER_MAX
    requires EncodeVar(u) <= EncodeVar(v)
    ensures u == v
  {
    var r := EncodeVar(v)[|EncodeVar(u)|..];
    assert EncodeVar(v) == EncodeVar(u) + r;
    VarRoundTrip(u, r);
    VarRoundTrip(v, []);
    assert EncodeVar(v) + [] == EncodeVar(v);
  }

  lemma {:induction false} VarValueBound(b: bytes)
    ensures VarValue(b) < Pow128(|b|)
  {
    if b == [] {
    } else {
      VarValueBound(b[1..]);
    }
  }

  /** Whatever is accepted stays within the maximum and is no shorter than the
      minimal encoding of its value. */
  lemma VarAccepted(s: bytes)
    requires ParseVarPartial(s).Done?
    ensures var p := ParseVarPartial(s);
            p.value <= VARIABLE_INTEGER_MAX && |p.rest| + VarSize(p.value) <= |s| <= |p.rest| + 4
  {
    var k := FrontCount(s, 3);
    VarValueBound(s[..k + 1]);
    PowersOf128();
  }

  /** Two terminated groups of bytes with the same length and value are equal. */
  lemma {:induction false} VarValueInjective(a: bytes, b: bytes)
    requires |a| == |b| && VarValue(a) == VarValue(b)
    requires forall i :: 0 <= i < |a| ==> Continues(a[i]) == Continues(b[i])
    ensures a == b
  {
    if a == [] {
    } else {
      assert Low7(a[0]) == Low7(b[0]);
      assert Continues(a[0]) == Continues(b[0]);
      VarValueInjective(a[1..], b[1..]);
      assert a == [a[0]] + a[1..] && b == [b[0]] + b[1..];
    }
  }

  /** The accepted bytes are the written ones exactly when they are minimal. */
  lemma VarMinimalIsEncoding(s: bytes)
    requires ParseVarPartial(s).Done?
    ensures var p := ParseVarPartial(s);
            s == EncodeVar(p.value) + p.rest <==> |s| == |p.rest| + VarSize(p.value)
  {
    var p := ParseVarPartial(s);
    VarAccepted(s);
    EncodeVarShape(p.value);
    var k := FrontCount(s, 3);
    if k + 1 == VarSize(p.value) {
      VarValueInjective(s[..k + 1], EncodeVar(p.value));
      assert s == s[..k + 1] + s[k + 1..];
    }
  }

  /** Bytes that arrive later do not change an answer already given. */
  lemma VarMonotone(s: bytes, x: bytes)
    requires !ParseVarPartial(s).Incomplete?
    ensures match ParseVarPartial(s)
            case Done(v, r) => ParseVarPartial(s + x) == Done(v, r + x)
            case _ => ParseVarPartial(s + x).Error?
  {
    var k := FrontCount(s, 3);
    FrontCountIs(s + x, 3, k);
    assert (s + x)[..k + 1] == s[..k + 1];
    assert (s + x)[k + 1..] == s[k + 1..] + x;
  }

  lemma ShiftProduct(v: nat, q: nat, p: nat)
    ensures 128 * (v + q * p) == 128 * v + q * (128 * p)
  {
  }

  lemma {:induction false} VarValueSnoc(b: bytes, x: byte)
    ensures VarValue(b + [x]) == VarValue(b) + Low7(x) * Pow128(|b|)
  {
    if b == [] {
      assert b + [x] == [x];
    } else {
      VarValueSnoc(b[1..], x);
      assert (b + [x])[1..] == b[1..] + [x];
      assert Pow128(|b|) == 128 * Pow128(|b| - 1);
      ShiftProduct(VarValue(b[1..]), Low7(x), Pow128(|b| - 1));
    }
  }

  /** parse_variable_u32 as the source computes it: the accepted bytes are summed in
      a loop; the accumulator never leaves the range of the format. */
  method ParseVariableU32(s: bytes) returns (result: Partial<nat>)
    ensures result == ParseVarPartial(s)
    ensures result.Done? ==> result.value <= VARIABLE_INTEGER_MAX
  {
    var front := 0;
    while front < 3 && front < |s| && Continues(s[front])
      invariant front <= 3 && front <= |s|
      invariant forall i :: 0 <= i < front ==> Continues(s[i])
    {
      front := front + 1;
    }
    if front == |s| {
      FrontCountAll(s, 3);
      return Incomplete;
    }
    FrontCountIs(s, 3, front);
    if Continues(s[front]) {
      return Error;
    }
    var accepted := s[..front + 1];
    var output: nat, weight: nat := 0, 1;
    for exp := 0 to |accepted|
      invariant weight == Pow128(exp)
      invariant output == VarValue(accepted[..exp])
      invariant output < Pow128(exp)
    {
      VarValueSnoc(accepted[..exp], accepted[exp]);
      VarValueBound(accepted[..exp + 1]);
      assert accepted[..exp + 1] == accepted[..exp] + [accepted[exp]];
      output := output + Low7(accepted[exp]) * weight;
      weight := 128 * weight;
    }
    assert accepted[..|accepted|] == accepted;
    VarAccepted(s);
    result := Done(output, s[front + 1..]);
  }

  // --------------------------------------------------------- text and binary data

  predicate Cont(b: byte) {
    0x80 <= b <= 0xBF
  }

  /** Length of the well-formed UTF-8 sequence at the front, 0 when there is none. */
  function Utf8Step(s: bytes): (n: nat)
    ensures n <= |s|
  {
    if s == [] then 0
    else if s[0] < 0x80 then 1
    else if |s| < 2 || !Cont(s[1]) then 0
    else if 0xC2 <= s[0] <= 0xDF then 2
    else if |s| < 3 || !Cont(s[2]) then 0
    else if s[0] == 0xE0 then (if 0xA0 <= s[1] then 3 else 0)
    else if s[0] == 0xED then (if s[1] <= 0x9F then 3 else 0)
    else if 0xE1 <= s[0] <= 0xEF then 3
    else if |s| < 4 || !Cont(s[3]) then 0
    else if s[0] == 0xF0 then (if 0x90 <= s[1] then 4 else 0)
    else if s[0] == 0xF4 then (if s[1] <= 0x8F then 4 else 0)
    else if 0xF1 <= s[0] <= 0xF3 then 4
    else 0
  }

  predicate ValidUtf8(s: bytes) {
    s == [] || (Utf8Step(s) > 0 && ValidUtf8(s[Utf8Step(s)..]))
  }

  /** The length fits the two-byte prefix. */
  predicate Short(b: bytes) {
    |b| <= 65535
  }

  function EncodeBinary(b: bytes): bytes {
    EncodeU16(|b|) + b
  }

  function ParseBinary(s: bytes): Parse<bytes> {
    var (n, r) :- ParseU16(s);
    if n > |r| then Fail else Ok(r[..n], r[n..])
  }

  function ParseText(s: bytes): Parse<bytes> {
    var (b, r) :- ParseBinary(s);
    if ValidUtf8(b) then Ok(b, r) else Fail
  }

  lemma BinaryRoundTrip(b: bytes, r: bytes)
    requires Short(b)
    ensures ParseBinary(EncodeBinary(b) + r) == Ok(b, r)
    ensures ValidUtf8(b) ==> ParseText(EncodeBinary(b) + r) == Ok(b, r)
  {
    hide ParseU16, EncodeU16, ValidUtf8;
    Associate(EncodeU16(|b|), b, r);
    U16RoundTrip(|b|, b + r);
    assert (b + r)[..|b|] == b && (b + r)[|b|..] == r;
  }

  lemma TakeDrop(a: bytes, b: bytes, n: nat)
    requires n <= |b|
    ensures a + b == a + b[..n] + b[n..]
  {
  }

  lemma BinaryExact(s: bytes)
    requires ParseBinary(s).Ok?
    ensures var p := ParseBinary(s); Short(p.value) && s == EncodeBinary(p.value) + p.rest
  {
    hide ParseU16, EncodeU16;
    U16Exact(s);
    var p := ParseU16(s);
    TakeDrop(EncodeU16(p.value), p.rest, p.value);
  }

  lemma TextExact(s: bytes)
    requires ParseText(s).Ok?
    ensures var p := ParseText(s);
            ValidUtf8(p.value) && Short(p.value) && s == EncodeBinary(p.value) + p.rest
  {
    hide ValidUtf8, ParseBinary, EncodeBinary, Short;
    BinaryExact(s);
  }

  // ------------------------------------------------------------ quality of service

  datatype QoS = AtMostOnce | AtLeastOnce | ExactlyOnce

  function QosCode(q: QoS): (n: nat)
    ensures n <= 2
  {
    match q case AtMostOnce => 0 case AtLeastOnce => 1 case ExactlyOnce => 2
  }

  function QosOf(n: nat): (q: Option<QoS>)
    ensures q.Some? <==> n <= 2
    ensures q.Some? ==> QosCode(q.value) == n
  {
    if n == 0 then Some(AtMostOnce)
    else if n == 1 then Some(AtLeastOnce)
    else if n == 2 then Some(ExactlyOnce)
    else None
  }

  function Bit(b: bool): (n: nat)
    ensures n <= 1
  {
    if b then 1 else 0
  }
}
