/** nktBase64Decrypt: the Base64 decoder, against the encoding of section 4 of RFC 4648.

Characters are their codes, and bytes and digits numbers: as a digit has six bits, the shifts
and the disjunctions that join them are multiplications, divisions and sums.
*/
module Base64 {
  import opened Options

  type Byte = b: nat | b < 256
  type Digit = d: nat | d < 64

  datatype HResult = S_OK | E_FAIL | E_OUTOFMEMORY

  // --- The table: positions are codes from 43 on, and an entry is a digit plus 62

  const DIGITS: string := "rstuvwxyz{"
  const UPPER1: string := ">?@ABCDEFGHIJ"
  const UPPER2: string := "KLMNOPQRSTUVW"
  const LOWER1: string := "XYZ[\\]^_`abcd"
  const LOWER2: string := "efghijklmnopq"
  const CD64: string := "|$$$}" + DIGITS + "$$$=$$$" + UPPER1 + UPPER2 + "$$$$$$" + LOWER1 + LOWER2

  /** The character that stands for a digit. */
  function CharOf(d: Digit): nat {
    if d < 26 then 'A' as int + d
    else if d < 52 then 'a' as int + (d - 26)
    else if d < 62 then '0' as int + (d - 52)
    else if d == 62 then '+' as int
    else '/' as int
  }

  ghost predicate Rising(s: string, n: nat, from: nat) {
    |s| == n && forall i :: 0 <= i < n ==> s[i] as int == from + i
  }

  lemma Pieces()
    ensures Rising(DIGITS, 10, 52 + 62)
    ensures Rising(UPPER1, 13, 0 + 62) && Rising(UPPER2, 13, 13 + 62)
    ensures Rising(LOWER1, 13, 26 + 62) && Rising(LOWER2, 13, 39 + 62)
  {
  }

  /** The table entry for a character code. */
  function Entry(k: nat): nat {
    Pieces();
    if k < 43 || k > 122 then '$' as int else CD64[k - 43] as int
  }

  /** Entries are right for the 64 characters of the alphabet, and other characters have none. */
  lemma EntryIs(k: nat)
    ensures Entry(k) == '=' as int <==> k == '=' as int
    ensures Entry(k) == '$' as int || Entry(k) == '=' as int || (62 <= Entry(k) < 126 && CharOf(Entry(k) - 62) == k)
  {
    EntryValue(k);
  }

  /** The whole table in terms of codes. */
  lemma EntryValue(k: nat)
    ensures Entry(k) ==
      if 48 <= k < 58 then k + 66        // digits
      else if 65 <= k < 91 then k - 3    // upper case
      else if 97 <= k < 123 then k - 9   // lower case
      else if k == 43 then 124           // +
      else if k == 47 then 125           // /
      else if k == 61 then 61            // =
      else 36
  {
    Pieces();
  }

  lemma EntryOfChar(d: Digit)
    ensures Entry(CharOf(d)) == d + 62
  {
    EntryValue(CharOf(d));
  }

  predicate IsJunk(k: nat) {
    Entry(k) == '$' as int
  }

  predicate IsEqual(k: nat) {
    Entry(k) == '=' as int
  }

  function DigitOf(k: nat): Digit
    requires !IsJunk(k) && !IsEqual(k)
  {
    EntryIs(k);
    Entry(k) - 62
  }

  // --- Decoding

  /** The digits of a text up to its end or its first zero; none when three '=' come with no
      alphabet character between them. */
  function Scan(s: seq<nat>, equals: nat): Option<seq<Digit>> {
    if s == [] || s[0] == 0 then Some([])
    else if IsEqual(s[0]) then if equals + 1 > 2 then None else Scan(s[1..], equals + 1)
    else if IsJunk(s[0]) then Scan(s[1..], equals)
    else Join([DigitOf(s[0])], Scan(s[1..], 0))
  }

  function Join(a: seq<Digit>, b: Option<seq<Digit>>): Option<seq<Digit>> {
    if b.None? then None else Some(a + b.value)
  }

  lemma JoinTwice(a: seq<Digit>, d: Digit, b: Option<seq<Digit>>)
    ensures Join(a, Join([d], b)) == Join(a + [d], b)
  {
    if b.Some? {
      assert a + ([d] + b.value) == a + [d] + b.value;
    }
  }

  lemma JoinNothing(a: seq<Digit>, b: Option<seq<Digit>>)
    ensures Join([], b) == b && Join(a, Some([])) == Some(a) && Join(a, None) == None
  {
    if b.Some? {
      assert [] + b.value == b.value;
    }
    assert a + [] == a;
  }

  function Byte0(a: Digit, b: Digit): Byte {
    a * 4 + b / 16
  }

  function Byte1(b: Digit, c: Digit): Byte {
    b * 16 % 256 + c / 4
  }

  function Byte2(c: Digit, d: Digit): Byte {
    c * 64 % 256 + d
  }

  /** Four digits are three bytes; of a rest, two are one byte and three are two. */
  function Pack(ds: seq<Digit>): seq<Byte> {
    if |ds| < 2 then []
    else if |ds| == 2 then [Byte0(ds[0], ds[1])]
    else if |ds| == 3 then [Byte0(ds[0], ds[1]), Byte1(ds[1], ds[2])]
    else [Byte0(ds[0], ds[1]), Byte1(ds[1], ds[2]), Byte2(ds[2], ds[3])] + Pack(ds[4..])
  }

  lemma {:induction false} PackSize(ds: seq<Digit>)
    ensures |Pack(ds)| == |ds| / 4 * 3 + (if |ds| % 4 == 0 then 0 else |ds| % 4 - 1)
  {
    if |ds| >= 4 { PackSize(ds[4..]); }
  }

  /** Whole groups are packed on their own. */
  lemma {:induction false} PackConcat(a: seq<Digit>, b: seq<Digit>)
    requires |a| % 4 == 0
    ensures Pack(a + b) == Pack(a) + Pack(b)
  {
    hide Byte0, Byte1, Byte2;
    if a == [] {
      assert a + b == b;
    } else {
      PackConcat(a[4..], b);
      assert (a + b)[4..] == a[4..] + b;
    }
  }

  /** The digits since the last whole group. */
  ghost function Rest(ds: seq<Digit>): seq<Digit> {
    ds[|ds| / 4 * 4..]
  }

  ghost function Groups(ds: seq<Digit>): (g: seq<Digit>)
    ensures |g| % 4 == 0 && |g| == |ds| / 4 * 4
  {
    ds[..|ds| / 4 * 4]
  }

  lemma NextDigit(ds: seq<Digit>, d: Digit)
    ensures var e := ds + [d];
      if |ds| % 4 == 3 then
        Rest(e) == [] && Groups(e) == Groups(ds) + (Rest(ds) + [d]) &&
            Pack(Groups(e)) == Pack(Groups(ds)) + Pack(Rest(ds) + [d])
      else Rest(e) == Rest(ds) + [d] && Groups(e) == Groups(ds)
  {
    hide Pack;
    var e := ds + [d];
    NextLength(|ds|);
    if |ds| % 4 == 3 {
      assert e[..|e|] == e && e[|e|..] == [];
      assert e == Groups(ds) + (Rest(ds) + [d]);
      PackConcat(Groups(ds), Rest(ds) + [d]);
    } else {
      var k := |ds| / 4 * 4;
      assert e[..k] == ds[..k] && e[k..] == ds[k..] + [d];
    }
  }

  lemma NextLength(n: nat)
    ensures (n + 1) / 4 * 4 == if n % 4 == 3 then n + 1 else n / 4 * 4
  {
  }

  lemma LastDigits(ds: seq<Digit>)
    ensures Pack(ds) == Pack(Groups(ds)) + Pack(Rest(ds))
  {
    PackConcat(Groups(ds), Rest(ds));
    assert ds == Groups(ds) + Rest(ds);
  }

  /** The decoder. Its writes stay inside a buffer of (n / 4) * 3 + 16 bytes, and it computes the
      packed digits of the text. */
  method Decrypt(s: seq<nat>, memory: bool) returns (hRes: HResult, buffer: array?<nat>, size: nat)
    ensures !memory ==> hRes == E_OUTOFMEMORY
    ensures memory ==> hRes == if Scan(s, 0).None? then E_FAIL else S_OK
    ensures hRes != S_OK ==> buffer == null && size == 0
    ensures hRes == S_OK ==>
      && buffer != null && buffer.Length == |s| / 4 * 3 + 16
      && size <= buffer.Length && buffer[..size] == Pack(Scan(s, 0).value)
      && var n := |Scan(s, 0).value|; size == n / 4 * 3 + (if n % 4 == 0 then 0 else n % 4 - 1)
  {
    hide Entry, CharOf, Pack, Join, Groups, Rest;
    buffer, size := null, 0;
    if !memory {
      return E_OUTOFMEMORY, null, 0;
    }
    var d := new nat[|s| / 4 * 3 + 16];
    var nTempValue: seq<Digit>, nEqualCounter, i := [], 0, 0;
    ghost var digits: seq<Digit> := [];
    NoDigits();
    JoinNothing([], Scan(s, 0));
    assert s[0..] == s;
    while i < |s| && s[i] != 0
      invariant 0 <= i <= |s| && |nTempValue| < 4
      invariant |digits| <= i && nTempValue == Rest(digits) && |nTempValue| == |digits| % 4
      invariant size == |digits| / 4 * 3
      invariant d[..size] == Pack(Groups(digits))
      invariant Scan(s, 0) == Join(digits, Scan(s[i..], nEqualCounter))
    {
      var v := Entry(s[i]);
      EntryIs(s[i]);
      assert s[i..][0] == s[i] && s[i..][1..] == s[i + 1..];
      i := i + 1;
      if v == '=' as int {
        nEqualCounter := nEqualCounter + 1;
        if nEqualCounter > 2 {
          JoinNothing(digits, None);
          return E_FAIL, null, 0;
        }
      } else if v != '$' as int {
        nEqualCounter := 0;
        JoinTwice(digits, v - 62, Scan(s[i..], 0));
        NextDigit(digits, v - 62);
        nTempValue := nTempValue + [v - 62];
        digits := digits + [v - 62];
        if |nTempValue| >= 4 {
          WriteGroup(d, size, nTempValue);
          size := size + 3;
          nTempValue := [];
        }
      }
    }
    JoinNothing(digits, None);
    LastDigits(digits);
    PackSize(digits);
    size := WriteRest(d, size, nTempValue);
    hRes, buffer := S_OK, d;
  }

  lemma NoDigits()
    ensures Rest([]) == [] && Pack(Groups([])) == []
  {
  }

  method WriteGroup(d: array<nat>, at: nat, t: seq<Digit>)
    requires |t| == 4 && at + 3 <= d.Length
    modifies d
    ensures d[..at + 3] == old(d[..at]) + Pack(t)
  {
    d[at], d[at + 1], d[at + 2] := Byte0(t[0], t[1]), Byte1(t[1], t[2]), Byte2(t[2], t[3]);
    assert Pack(t[4..]) == [];
  }

  method WriteRest(d: array<nat>, at: nat, t: seq<Digit>) returns (size: nat)
    requires |t| < 4 && at + 3 <= d.Length
    modifies d
    ensures size <= d.Length && d[..size] == old(d[..at]) + Pack(t)
  {
    size := at;
    if |t| > 1 {
      d[at] := Byte0(t[0], t[1]);
      if |t| > 2 {
        d[at + 1] := Byte1(t[1], t[2]);
      }
      size := size + |t| - 1;
    }
  }

  // --- Encoding

  /** The digits of a byte string. */
  function Digits(x: seq<Byte>): seq<Digit> {
    if x == [] then []
    else if |x| == 1 then [x[0] / 4, x[0] % 4 * 16]
    else if |x| == 2 then [x[0] / 4, x[0] % 4 * 16 + x[1] / 16, x[1] % 16 * 4]
    else [x[0] / 4, x[0] % 4 * 16 + x[1] / 16, x[1] % 16 * 4 + x[2] / 64, x[2] % 64] + Digits(x[3..])
  }

  function Chars(ds: seq<Digit>): (s: seq<nat>)
    ensures |s| == |ds|
  {
    if ds == [] then [] else [CharOf(ds[0])] + Chars(ds[1..])
  }

  function Padding(n: nat): seq<nat> {
    if n % 3 == 0 then [] else if n % 3 == 1 then ['=' as int, '=' as int] else ['=' as int]
  }

  /** RFC 4648, section 4. */
  function Encode(x: seq<Byte>): seq<nat> {
    Chars(Digits(x)) + Padding(|x|)
  }

  lemma {:induction false} PackDigits(x: seq<Byte>)
    ensures Pack(Digits(x)) == x
  {
    hide Byte0, Byte1, Byte2;
    if |x| >= 3 {
      PackDigits(x[3..]);
      PackGroup(x[0], x[1], x[2], Digits(x[3..]));
      assert x == [x[0], x[1], x[2]] + x[3..];
    } else if |x| == 2 {
      BytesOfDigits(x[0], x[1], 0);
    } else if |x| == 1 {
      BytesOfDigits(x[0], 0, 0);
    }
  }

  lemma PackGroup(a: Byte, b: Byte, c: Byte, ds: seq<Digit>)
    ensures Pack([a / 4, a % 4 * 16 + b / 16, b % 16 * 4 + c / 64, c % 64] + ds) == [a, b, c] + Pack(ds)
  {
    hide Byte0, Byte1, Byte2;
    var g := [a / 4, a % 4 * 16 + b / 16, b % 16 * 4 + c / 64, c % 64];
    assert (g + ds)[4..] == ds;
    BytesOfDigits(a, b, c);
  }

  lemma BytesOfDigits(a: Byte, b: Byte, c: Byte)
    ensures Byte0(a / 4, a % 4 * 16 + b / 16) == a
    ensures Byte1(a % 4 * 16 + b / 16, b % 16 * 4 + c / 64) == b
    ensures Byte2(b % 16 * 4 + c / 64, c % 64) == c
  {
    FirstByte(a, b / 16);
    SecondByte(a % 4, b, c / 64);
    ThirdByte(b % 16, c);
  }

  lemma FirstByte(a: Byte, h: nat)
    requires h < 16
    ensures a / 4 * 4 + (a % 4 * 16 + h) / 16 == a
  {
  }

  lemma SecondByte(l: nat, b: Byte, h: nat)
    requires l < 4 && h < 4
    ensures (l * 16 + b / 16) * 16 % 256 + (b % 16 * 4 + h) / 4 == b
  {
  }

  lemma ThirdByte(l: nat, c: Byte)
    requires l < 16
    ensures (l * 4 + c / 64) * 64 % 256 + c % 64 == c
  {
  }

  lemma CharIsDigit(d: Digit)
    ensures CharOf(d) != 0 && !IsJunk(CharOf(d)) && !IsEqual(CharOf(d)) && DigitOf(CharOf(d)) == d
  {
    EntryOfChar(d);
  }

  lemma {:induction false} ScanChars(ds: seq<Digit>, tail: seq<nat>, equals: nat)
    requires Scan(tail, if ds == [] then equals else 0) == Some([])
    ensures Scan(Chars(ds) + tail, equals) == Some(ds)
    decreases |ds|
  {
    hide Entry, CharOf;
    var s := Chars(ds) + tail;
    if ds == [] {
      assert s == tail;
    } else {
      CharIsDigit(ds[0]);
      ScanChars(ds[1..], tail, 0);
      assert s[1..] == Chars(ds[1..]) + tail;
      assert [ds[0]] + ds[1..] == ds;
    }
  }

  lemma {:induction false} ScanEquals(n: nat, equals: nat)
    requires equals + n <= 2
    ensures Scan(seq(n, _ => '=' as int), equals) == Some([])
  {
    EntryIs('=' as int);
    if n > 0 {
      ScanEquals(n - 1, equals + 1);
      assert seq(n, _ => '=' as int)[1..] == seq(n - 1, _ => '=' as int);
    }
  }

  lemma PaddingHasNoDigits(n: nat)
    ensures Scan(Padding(n), 0) == Some([])
  {
    ScanEquals(2, 0);
    ScanEquals(1, 0);
    assert Padding(n) == seq(|Padding(n)|, _ => '=' as int);
  }

  /** A text without its junk. */
  function Stripped(s: seq<nat>): seq<nat> {
    if s == [] then [] else if IsJunk(s[0]) then Stripped(s[1..]) else [s[0]] + Stripped(s[1..])
  }

  lemma {:induction false} ScanIgnoresJunk(s: seq<nat>, equals: nat)
    requires 0 !in s
    ensures Scan(s, equals) == Scan(Stripped(s), equals)
    decreases |s|
  {
    if s != [] {
      if IsJunk(s[0]) {
        EntryIs(s[0]);
        ScanIgnoresJunk(s[1..], equals);
      } else {
        assert Stripped(s)[1..] == Stripped(s[1..]);
        ScanIgnoresJunk(s[1..], if IsEqual(s[0]) then equals + 1 else 0);
      }
    }
  }

  /** Decoding the encoding of any byte string gives it back, also after characters that are neither
      zero nor in the alphabet nor '=' were put in anywhere. */
  lemma RoundTrip(x: seq<Byte>, s: seq<nat>)
    requires 0 !in s && Stripped(s) == Encode(x)
    ensures Scan(s, 0) == Some(Digits(x)) && Pack(Digits(x)) == x
  {
    ScanIgnoresJunk(s, 0);
    PaddingHasNoDigits(|x|);
    ScanChars(Digits(x), Padding(|x|), 0);
    PackDigits(x);
  }

  /** The encoding itself holds no junk and no zero. */
  lemma EncodingIsClean(x: seq<Byte>)
    ensures 0 !in Encode(x) && Stripped(Encode(x)) == Encode(x)
  {
    EntryIs('=' as int);
    CharsAreClean(Digits(x));
    assert forall i :: 0 <= i < |Encode(x)| ==> Encode(x)[i] != 0 && !IsJunk(Encode(x)[i]);
    CleanIsStripped(Encode(x));
  }

  lemma {:induction false} CharsAreClean(ds: seq<Digit>)
    ensures forall i :: 0 <= i < |ds| ==> Chars(ds)[i] != 0 && !IsJunk(Chars(ds)[i])
  {
    if ds != [] {
      EntryOfChar(ds[0]);
      CharsAreClean(ds[1..]);
    }
  }

  lemma {:induction false} CleanIsStripped(s: seq<nat>)
    requires forall i :: 0 <= i < |s| ==> !IsJunk(s[i])
    ensures Stripped(s) == s
  {
    if s != [] { CleanIsStripped(s[1..]); }
  }

  // --- What any text decodes to

  predicate InAlphabet(c: nat) {
    'A' as int <= c <= 'Z' as int || 'a' as int <= c <= 'z' as int || '0' as int <= c <= '9' as int
    || c == '+' as int || c == '/' as int
  }

  /** The characters of the alphabet before the first zero. */
  function Letters(s: seq<nat>): seq<nat> {
    if s == [] || s[0] == 0 then []
    else (if InAlphabet(s[0]) then [s[0]] else []) + Letters(s[1..])
  }

  /** How many '=' there are. */
  function Equals(s: seq<nat>): nat {
    if s == [] then 0 else (if s[0] == '=' as int then 1 else 0) + Equals(s[1..])
  }

  /** Between i and k is no character of the alphabet, and before k no zero. */
  ghost predicate Gap(s: seq<nat>, i: nat, k: nat) {
    i <= k <= |s| && (forall x :: 0 <= x < k ==> s[x] != 0) && forall x :: i <= x < k ==> !InAlphabet(s[x])
  }

  ghost predicate ThreeEquals(s: seq<nat>) {
    exists i: nat, k: nat :: Gap(s, i, k) && Equals(s[i..k]) >= 3
  }

  /** With `equals` of them read before. */
  ghost predicate EqualsReach3(s: seq<nat>, equals: nat) {
    exists k: nat :: Gap(s, 0, k) && equals + Equals(s[..k]) >= 3
  }

  lemma CodesAreRight(c: nat)
    ensures IsEqual(c) <==> c == '=' as int
    ensures IsJunk(c) <==> c != '=' as int && !InAlphabet(c)
    ensures InAlphabet(c) ==> CharOf(DigitOf(c)) == c
  {
    EntryValue(c);
  }

  /** The digits are those of the characters of the alphabet before the first zero, in their order,
      whatever is between them. */
  lemma {:induction false} ScanReadsLetters(s: seq<nat>, equals: nat)
    requires Scan(s, equals).Some?
    ensures Chars(Scan(s, equals).value) == Letters(s)
    decreases |s|
  {
    hide InAlphabet, Entry, CharOf;
    if s != [] && s[0] != 0 {
      CodesAreRight(s[0]);
      if IsEqual(s[0]) {
        EqualIsNoLetter();
        ScanReadsLetters(s[1..], equals + 1);
      } else if IsJunk(s[0]) {
        ScanReadsLetters(s[1..], equals);
      } else {
        ScanReadsLetters(s[1..], 0);
        var rest := Scan(s[1..], 0).value;
        assert ([DigitOf(s[0])] + rest)[1..] == rest;
      }
    }
  }

  lemma EqualIsNoLetter()
    ensures !InAlphabet('=' as int) && !InAlphabet(0)
  {
  }

  /** A text is refused if and only if three '=' come with no character of the alphabet between them,
      before any zero. */
  lemma ScanFailsIff(s: seq<nat>)
    ensures Scan(s, 0).None? <==> ThreeEquals(s)
  {
    ScanFailsFrom(s, 0);
    if EqualsReach3(s, 0) {
      var k: nat :| Gap(s, 0, k) && Equals(s[..k]) >= 3;
      assert s[0..k] == s[..k];
    }
  }

  lemma {:induction false} ScanFailsFrom(s: seq<nat>, equals: nat)
    requires equals <= 2
    ensures Scan(s, equals).None? <==> EqualsReach3(s, equals) || ThreeEquals(s)
    decreases |s|
  {
    hide InAlphabet, Entry, Gap, EqualsReach3, ThreeEquals, Equals;
    if s == [] || s[0] == 0 {
      NothingReached(s, equals);
    } else {
      CodesAreRight(s[0]);
      EqualIsNoLetter();
      ThreeEqualsStep(s);
      ReachStep(s, equals);
      ReachMore(s, equals);
      if IsEqual(s[0]) {
        if equals + 1 <= 2 { ScanFailsFrom(s[1..], equals + 1); }
      } else if IsJunk(s[0]) {
        ScanFailsFrom(s[1..], equals);
      } else {
        ScanFailsFrom(s[1..], 0);
        ReachIsThree(s[1..]);
      }
    }
  }

  lemma ReachIsThree(s: seq<nat>)
    ensures EqualsReach3(s, 0) ==> ThreeEquals(s)
  {
    if EqualsReach3(s, 0) {
      var k: nat :| Gap(s, 0, k) && Equals(s[..k]) >= 3;
      assert s[0..k] == s[..k];
    }
  }

  lemma ReachMore(s: seq<nat>, equals: nat)
    ensures EqualsReach3(s, 0) ==> EqualsReach3(s, equals)
  {
  }

  lemma NothingReached(s: seq<nat>, equals: nat)
    requires equals <= 2 && (s == [] || s[0] == 0)
    ensures !EqualsReach3(s, equals) && !ThreeEquals(s)
  {
  }

  lemma ReachStep(s: seq<nat>, equals: nat)
    requires equals <= 2 && s != [] && s[0] != 0
    ensures EqualsReach3(s, equals) <==>
      if InAlphabet(s[0]) then false
      else if s[0] == '=' as int then equals + 1 > 2 || EqualsReach3(s[1..], equals + 1)
      else EqualsReach3(s[1..], equals)
  {
    hide InAlphabet;
    EqualIsNoLetter();
    var more := equals + if s[0] == '=' as int then 1 else 0;
    if EqualsReach3(s, equals) {
      var k: nat :| Gap(s, 0, k) && equals + Equals(s[..k]) >= 3;
      assert s[..k][1..] == s[1..][..k - 1];
      assert Gap(s[1..], 0, k - 1);
    }
    if !InAlphabet(s[0]) && EqualsReach3(s[1..], more) {
      var k: nat :| Gap(s[1..], 0, k) && more + Equals(s[1..][..k]) >= 3;
      assert s[..k + 1] == [s[0]] + s[1..][..k] && s[..k + 1][1..] == s[1..][..k];
      assert Gap(s, 0, k + 1);
    }
    if !InAlphabet(s[0]) && more > 2 {
      assert s[..1] == [s[0]] && Gap(s, 0, 1);
    }
  }

  lemma ThreeEqualsStep(s: seq<nat>)
    requires s != [] && s[0] != 0
    ensures ThreeEquals(s) <==> ThreeEquals(s[1..]) || EqualsReach3(s, 0)
  {
    hide InAlphabet;
    if ThreeEquals(s) {
      var i: nat, k: nat :| Gap(s, i, k) && Equals(s[i..k]) >= 3;
      if i == 0 {
        assert s[0..k] == s[..k];
      } else {
        assert s[..k] == [s[0]] + s[1..][..k - 1] && s[1..][i - 1..k - 1] == s[i..k];
        assert Gap(s[1..], i - 1, k - 1);
      }
    }
    if ThreeEquals(s[1..]) {
      var i: nat, k: nat :| Gap(s[1..], i, k) && Equals(s[1..][i..k]) >= 3;
      assert s[..k + 1] == [s[0]] + s[1..][..k] && s[1..][i..k] == s[i + 1..k + 1];
      assert Gap(s, i + 1, k + 1);
    }
    ReachIsThree(s);
  }

  /** The bytes are the bits of the digits, six each, as far as they fill bytes; the bits left over are
      dropped. For whole groups and each rest: */
  lemma PackIsBits(a: Digit, b: Digit, c: Digit, d: Digit)
    ensures var p := Pack([a, b, c, d]);
      && |p| == 3
      && (p[0] as int) * 65536 + (p[1] as int) * 256 + p[2] as int
          == (a as int) * 262144 + (b as int) * 4096 + (c as int) * 64 + d as int
    ensures var p := Pack([a, b, c]);
      |p| == 2 && (p[0] as int) * 256 + p[1] as int == ((a as int) * 4096 + (b as int) * 64 + c as int) / 4
    ensures var p := Pack([a, b]); |p| == 1 && p[0] as int == ((a as int) * 64 + b as int) / 16
    ensures Pack([a]) == []
  {
    assert Pack([a, b, c, d][4..]) == [];
    SecondBits(b, c);
    ThirdBits(c, d);
  }

  lemma SecondBits(b: Digit, c: Digit)
    ensures Byte1(b, c) == b % 16 * 16 + c / 4 && b == b / 16 * 16 + b % 16
  {
  }

  lemma ThirdBits(c: Digit, d: Digit)
    ensures Byte2(c, d) == c % 4 * 64 + d && c == c / 4 * 4 + c % 4
  {
  }
}
