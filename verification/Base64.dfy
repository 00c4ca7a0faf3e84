/**
  src/base64.cpp: two byte-by-byte state machines, base64_encode and base64_decode, and the definition
  they implement, section 4 of RFC 4648.  Characters are their codes.  Shifts and masks are written
  as divisions and remainders; an `or` is written as a sum where the bits are disjoint.
*/
module Base64 {
  import opened Bytes

  const PAD: byte := 61       // '='
  const DE_FIRST: byte := 43  // '+'
  const DE_LAST: byte := 122  // 'z'

  type sextet = x: int | 0 <= x < 64

  /** base64en, by its runs: A-Z, a-z, 0-9, +, /. */
  function En(x: sextet): byte {
    if x < 26 then x + 65 else if x < 52 then x + 71 else if x < 62 then x - 4 else if x == 62 then 43 else 47
  }

  /** base64de, by its runs; 255 marks an unused code. */
  function De(c: byte): byte {
    if c == 43 then 62 else if c == 47 then 63
    else if 48 <= c <= 57 then c + 4
    else if 65 <= c <= 90 then c - 65
    else if 97 <= c <= 122 then c - 71
    else 255
  }

  /** What the decoder accepts as a digit: in the table's range and used. */
  predicate IsDigit(c: byte) { DE_FIRST <= c <= DE_LAST && De(c) != 255 }

  lemma TablesAreInverse(x: sextet)
    ensures IsDigit(En(x)) && En(x) != PAD && De(En(x)) == x
  {
  }

  /** Table 1 of RFC 4648. */
  const UPPER: string := "ABCDEFGHIJKLMNOPQRSTUVWXYZ"
  const LOWER: string := "abcdefghijklmnopqrstuvwxyz"
  const DIGITS: string := "0123456789"
  const ALPHABET: string := UPPER + LOWER + DIGITS + "+/"

  /** The tables are the RFC's: the encode table is its alphabet, the padding character is '=', and
      the decoder takes exactly the alphabet's characters, each for its place there. */
  lemma TablesAreTheAlphabet(c: byte)
    ensures |ALPHABET| == 64 && PAD == '=' as int
    ensures forall x: sextet :: En(x) == ALPHABET[x] as int
    ensures IsDigit(c) <==> exists x: sextet :: c == ALPHABET[x] as int
    ensures forall x: sextet | c == ALPHABET[x] as int :: De(c) == x
  {
    forall x: sextet ensures En(x) == ALPHABET[x] as int {
      Letter(x);
    }
    if IsDigit(c) {
      assert En(De(c)) == c;
    }
    forall x: sextet | c == ALPHABET[x] as int ensures IsDigit(c) && De(c) == x {
      TablesAreInverse(x);
    }
  }

  lemma Letter(x: sextet)
    ensures |ALPHABET| == 64 && En(x) == ALPHABET[x] as int
  {
    assert UPPER == seq(26, i requires 0 <= i < 26 => (65 + i) as char);
    assert LOWER == seq(26, i requires 0 <= i < 26 => (97 + i) as char);
    assert DIGITS == seq(10, i requires 0 <= i < 10 => (48 + i) as char);
  }

  // ---------------------------------------------------------------------------------------------
  // The definition

  /** Three octets as 24 bits, and the k-th of the four 6-bit groups they divide into. */
  function Group24(a: byte, b: byte, c: byte): nat { 65536 * a + 256 * b + c }

  function Sextet(g: nat, k: nat): sextet
    requires k < 4
  {
    g / [262144, 4096, 64, 1][k] % 64
  }

  function Digit(g: nat, k: nat): byte
    requires k < 4
  {
    En(Sextet(g, k))
  }

  /** Whole groups give four characters each; a final group of one or two octets, filled with zero
      bits, gives two or three, without the padding. */
  function Digits(s: seq<byte>): seq<byte> {
    if |s| == 0 then []
    else if |s| == 1 then Group(s[0], 0, 0)[..2]
    else if |s| == 2 then Group(s[0], s[1], 0)[..3]
    else Group(s[0], s[1], s[2]) + Digits(s[3..])
  }

  /** The four characters of one group of octets. */
  function Group(a: byte, b: byte, c: byte): (r: seq<byte>)
    ensures |r| == 4
  {
    var g := Group24(a, b, c);
    [Digit(g, 0), Digit(g, 1), Digit(g, 2), Digit(g, 3)]
  }

  function Padding(n: nat): seq<byte> {
    if n % 3 == 1 then [PAD, PAD] else if n % 3 == 2 then [PAD] else []
  }

  function Encoded(s: seq<byte>): seq<byte> { Digits(s) + Padding(|s|) }

  /** The octets of a string of digits; the bits that do not fill an octet are dropped. */
  function Octets(s: seq<byte>): seq<byte> {
    if |s| < 2 then []
    else if |s| == 2 then [First(De(s[0]), De(s[1]))]
    else if |s| == 3 then [First(De(s[0]), De(s[1])), Second(De(s[1]), De(s[2]))]
    else Three(s[..4]) + Octets(s[4..])
  }

  /** The three octets of a group of four digits. */
  function Three(r: seq<byte>): (s: seq<byte>)
    requires |r| == 4
    ensures |s| == 3
  {
    [First(De(r[0]), De(r[1])), Second(De(r[1]), De(r[2])), Third(De(r[2]), De(r[3]))]
  }

  function First(d: byte, e: byte): byte { d % 64 * 4 + e / 16 % 4 }
  function Second(d: byte, e: byte): byte { d % 16 * 16 + e / 4 % 16 }
  function Third(d: byte, e: byte): byte { d % 4 * 64 + e % 64 }

  function FirstPad(s: seq<byte>): (n: nat)
    ensures n <= |s|
    ensures forall i | 0 <= i < n :: s[i] != PAD
    ensures n < |s| ==> s[n] == PAD
  {
    if s == [] || s[0] == PAD then 0 else 1 + FirstPad(s[1..])
  }

  ghost predicate Clean(s: seq<byte>) { forall i | 0 <= i < |s| :: IsDigit(s[i]) }

  /** What decoding a string gives: everything from the first padding character on is ignored, and a
      string of the wrong length or with a foreign character before that gives nothing. */
  ghost function Decoded(s: seq<byte>): seq<byte> {
    if |s| % 4 == 0 && Clean(s[..FirstPad(s)]) then Octets(s[..FirstPad(s)]) else []
  }

  // ---------------------------------------------------------------------------------------------
  // Decoding undoes encoding

  /** The state machine's bit operations cut out the RFC's sextets. */
  lemma SextetsByOctet(a: byte, b: byte, c: byte)
    ensures var g := Group24(a, b, c);
      && Sextet(g, 0) == a / 4
      && Sextet(g, 1) == a % 4 * 16 + b / 16
      && Sextet(g, 2) == b % 16 * 4 + c / 64
      && Sextet(g, 3) == c % 64
  {
    var g := Group24(a, b, c);
    var x, y, z, w := a / 4, a % 4 * 16 + b / 16, b % 16 * 4 + c / 64, c % 64;
    assert g == 64 * (64 * (64 * x + y) + z) + w;
    assert g / 64 == 64 * (64 * x + y) + z;
    assert g / 4096 == g / 64 / 64 == 64 * x + y;
    assert g / 262144 == g / 4096 / 64 == x;
  }

  lemma GroupRoundTrip(a: byte, b: byte, c: byte)
    ensures var r := Group(a, b, c);
      Clean(r) && Three(r) == [a, b, c]
  {
    var g := Group24(a, b, c);
    forall k | 0 <= k < 4 ensures IsDigit(Digit(g, k)) && De(Digit(g, k)) == Sextet(g, k) {
      TablesAreInverse(Sextet(g, k));
    }
    SextetsByOctet(a, b, c);
    SextetsRoundTrip(a, b, c);
  }

  lemma SextetsRoundTrip(a: byte, b: byte, c: byte)
    ensures First(a / 4, a % 4 * 16 + b / 16) == a
    ensures Second(a % 4 * 16 + b / 16, b % 16 * 4 + c / 64) == b
    ensures Third(b % 16 * 4 + c / 64, c % 64) == c
  {
    FirstRoundTrip(a, b / 16);
    SecondRoundTrip(a % 4, b, c / 64);
    ThirdRoundTrip(b % 16, c);
  }

  lemma FirstRoundTrip(a: byte, y: nat)
    requires y < 16
    ensures First(a / 4, a % 4 * 16 + y) == a
  {
    assert (a % 4 * 16 + y) / 16 == a % 4;
  }

  lemma SecondRoundTrip(x: nat, b: byte, z: nat)
    requires x < 4 && z < 4
    ensures Second(x * 16 + b / 16, b % 16 * 4 + z) == b
  {
    assert (x * 16 + b / 16) % 16 == b / 16;
    assert (b % 16 * 4 + z) / 4 == b % 16;
  }

  lemma ThirdRoundTrip(y: nat, c: byte)
    requires y < 16
    ensures Third(y * 4 + c / 64, c % 64) == c
  {
    assert (y * 4 + c / 64) % 4 == c / 64;
  }

  lemma {:induction false} DigitsRoundTrip(s: seq<byte>)
    ensures Clean(Digits(s)) && Octets(Digits(s)) == s
    decreases |s|
  {
    hide Group, Octets, IsDigit, Three;
    if s == [] {
      NoOctets();
    } else {
      var a, b, c := s[0], if |s| > 1 then s[1] else 0, if |s| > 2 then s[2] else 0;
      GroupRoundTrip(a, b, c);
      var r := Group(a, b, c);
      if |s| >= 3 {
        DigitsRoundTrip(s[3..]);
        OctetsOfGroup(r, Digits(s[3..]));
        assert s == [a, b, c] + s[3..];
      } else {
        OctetsOfPart(r, |s| + 1);
        assert s == [a, b][..|s|];
      }
    }
  }

  lemma OctetsOfGroup(r: seq<byte>, rest: seq<byte>)
    requires |r| == 4
    ensures Octets(r + rest) == Three(r) + Octets(rest)
  {
    hide Three;
    assert (r + rest)[..4] == r && (r + rest)[4..] == rest;
  }

  lemma OctetsOfPart(r: seq<byte>, n: nat)
    requires |r| == 4 && 2 <= n <= 3
    ensures Octets(r[..n]) == Three(r)[..n - 1]
  {
    hide De, First, Second, Third;
  }

  lemma NoOctets()
    ensures Octets([]) == []
  {
  }

  lemma {:induction false} DigitsLength(s: seq<byte>)
    ensures |Digits(s)| + |Padding(|s|)| == 4 * ((|s| + 2) / 3)
    decreases |s|
  {
    hide Group, Padding;
    if |s| >= 3 {
      DigitsLength(s[3..]);
      PaddingLength(|s|);
    } else {
      PaddingOfFew();
    }
  }

  lemma PaddingLength(n: nat)
    requires n >= 3
    ensures Padding(n) == Padding(n - 3) && (n + 2) / 3 == (n - 3 + 2) / 3 + 1
  {
  }

  lemma PaddingOfFew()
    ensures Padding(0) == [] && Padding(1) == [PAD, PAD] && Padding(2) == [PAD]
  {
  }

  lemma {:induction false} FirstPadAfterDigits(x: seq<byte>, y: seq<byte>)
    requires Clean(x) && (y == [] || y[0] == PAD)
    ensures FirstPad(x + y) == |x|
    decreases |x|
  {
    if x == [] {
      assert x + y == y;
    } else {
      assert (x + y)[1..] == x[1..] + y;
      FirstPadAfterDigits(x[1..], y);
    }
  }

  /** The round trip, for every byte string; and the encoding has 4*ceil(n/3) characters. */
  lemma DecodeUndoesEncode(s: seq<byte>)
    ensures Decoded(Encoded(s)) == s
    ensures |Encoded(s)| == 4 * ((|s| + 2) / 3)
  {
    hide Digits, Octets, FirstPad, Padding, IsDigit;
    DigitsRoundTrip(s);
    DigitsLength(s);
    PaddingStartsWithPad(|s|);
    FirstPadAfterDigits(Digits(s), Padding(|s|));
    assert Encoded(s)[..|Digits(s)|] == Digits(s);
    MultipleOfFour((|s| + 2) / 3);
  }

  lemma PaddingStartsWithPad(n: nat)
    ensures Padding(n) == [] || Padding(n)[0] == PAD
  {
  }

  lemma MultipleOfFour(n: nat)
    ensures 4 * n % 4 == 0
  {
  }

  // ---------------------------------------------------------------------------------------------
  // The encoding, character by character

  /** The octets of the q-th group as 24 bits, missing ones as zero. */
  function GroupAt(s: seq<byte>, q: nat): nat { 65536 * At(s, 3 * q) + 256 * At(s, 3 * q + 1) + At(s, 3 * q + 2) }

  /** The k-th character stands for bits 6k to 6k+5 of the octets, as long as one of those is in
      them, and is '=' from there on. */
  function CharacterOf(s: seq<byte>, k: nat): char {
    assert |ALPHABET| == 64;
    if 6 * k < 8 * |s| then ALPHABET[Sextet(GroupAt(s, k / 4), k % 4)] else '='
  }

  /** The encoding, character by character. */
  lemma {:induction false} CharacterAt(s: seq<byte>, k: nat)
    requires k < 4 * ((|s| + 2) / 3)
    ensures |Encoded(s)| == 4 * ((|s| + 2) / 3) && Encoded(s)[k] == CharacterOf(s, k) as int
    decreases |s|
  {
    hide CharacterOf, Encoded, Group;
    LengthOfEncoded(s);
    if |s| >= 3 {
      EncodedGroup(s);
      if k >= 4 {
        CharacterAt(s[3..], k - 4);
        LaterGroup(s, k);
      } else {
        FirstGroup(s, k);
      }
    } else {
      LastGroup(s, k);
    }
  }

  lemma LengthOfEncoded(s: seq<byte>)
    ensures |Encoded(s)| == 4 * ((|s| + 2) / 3)
  {
    DigitsLength(s);
  }

  lemma FirstGroup(s: seq<byte>, k: nat)
    requires k < 4 && 6 * k < 8 * |s|
    ensures Group(At(s, 0), At(s, 1), At(s, 2))[k] == CharacterOf(s, k) as int
  {
    var g := GroupAt(s, 0);
    assert g == Group24(At(s, 0), At(s, 1), At(s, 2));
    hide ALPHABET, En, Sextet, GroupAt, Group24;
    Letter(Sextet(g, k));
    assert k / 4 == 0 && k % 4 == k;
  }

  lemma LaterGroup(s: seq<byte>, k: nat)
    requires |s| >= 3 && k >= 4
    ensures CharacterOf(s, k) == CharacterOf(s[3..], k - 4)
  {
    hide ALPHABET, Sextet;
    assert k / 4 == (k - 4) / 4 + 1 && k % 4 == (k - 4) % 4;
    assert GroupAt(s, k / 4) == GroupAt(s[3..], (k - 4) / 4);
  }

  lemma LastGroup(s: seq<byte>, k: nat)
    requires 0 < |s| < 3 && k < 4
    ensures |Encoded(s)| == 4 && Encoded(s)[k] == CharacterOf(s, k) as int
  {
    PaddingOfFew();
    hide ALPHABET, Group, Padding, Sextet, GroupAt;
    if 6 * k < 8 * |s| {
      FirstGroup(s, k);
    }
  }

  lemma EncodedGroup(s: seq<byte>)
    requires |s| >= 3
    ensures Encoded(s) == Group(At(s, 0), At(s, 1), At(s, 2)) + Encoded(s[3..])
  {
    hide Group;
    PaddingLength(|s|);
    hide Padding;
    assert (Group(s[0], s[1], s[2]) + Digits(s[3..])) + Padding(|s|)
        == Group(s[0], s[1], s[2]) + (Digits(s[3..]) + Padding(|s|));
  }

  // ---------------------------------------------------------------------------------------------
  // base64_encode

  lemma {:induction false} DigitsAppend(x: seq<byte>, y: seq<byte>)
    requires |x| % 3 == 0
    ensures Digits(x + y) == Digits(x) + Digits(y)
    decreases |x|
  {
    hide Group;
    if x == [] {
      assert x + y == y;
    } else {
      DigitsAppend(x[3..], y);
      assert (x + y)[3..] == x[3..] + y;
      var g := Group(x[0], x[1], x[2]);
      assert (g + Digits(x[3..])) + Digits(y) == g + (Digits(x[3..]) + Digits(y));
    }
  }

  /** What the encoder has written after i octets: the whole groups, and the digits of the
      unfinished group that do not depend on octets to come. */
  function Written(input: seq<byte>, i: nat): seq<byte>
    requires i <= |input|
  {
    var s := i % 3;
    Digits(input[..i - s]) + (if s == 0 then [] else Group(input[i - s], if s == 2 then input[i - 1] else 0, 0)[..s])
  }

  /** The characters for octet c in state s, after octet l. */
  function Step(s: nat, l: byte, c: byte): (r: seq<byte>)
    ensures |r| == if s < 2 then 1 else 2
  {
    if s == 0 then [En(c / 4 % 64)]
    else if s == 1 then [En(l % 4 * 16 + c / 16 % 16)]
    else [En(l % 16 * 4 + c / 64 % 4), En(c % 64)]
  }

  /** The characters that finish the output in state s, after octet l. */
  function Finish(s: nat, l: byte): seq<byte> {
    if s == 0 then [] else if s == 1 then [En(l % 4 * 16), PAD, PAD] else [En(l % 16 * 4), PAD]
  }

  lemma GroupByOctet(a: byte, b: byte, c: byte)
    ensures Group(a, b, c) == Step(0, 0, a) + Step(1, a, b) + Step(2, b, c)
  {
    hide En, Sextet, Group24;
    SextetsByOctet(a, b, c);
    MasksChangeNothing(a);
    MasksChangeNothing(b);
    MasksChangeNothing(c);
  }

  lemma MasksChangeNothing(x: byte)
    ensures x / 4 % 64 == x / 4 && x / 16 % 16 == x / 16 && x / 64 % 4 == x / 64
  {
  }

  lemma WrittenNext(input: seq<byte>, i: nat)
    requires i < |input|
    ensures Written(input, i + 1) == Written(input, i) + Step(i % 3, Last(input[..i]), input[i])
  {
    hide Digits, Group, Step;
    var s := i % 3;
    var k := i - s;
    if s == 0 {
      GroupByOctet(input[i], 0, 0);
      FirstStep(Last(input[..i]), input[i]);
    } else if s == 1 {
      GroupByOctet(input[k], 0, 0);
      GroupByOctet(input[k], input[i], 0);
    } else {
      GroupByOctet(input[k], input[k + 1], 0);
      GroupByOctet(input[k], input[k + 1], input[i]);
      assert input[..i + 1] == input[..k] + [input[k], input[k + 1], input[i]];
      DigitsAppend(input[..k], [input[k], input[k + 1], input[i]]);
      OneGroup([input[k], input[k + 1], input[i]]);
    }
  }

  lemma FirstStep(l: byte, c: byte)
    ensures Step(0, l, c) == Step(0, 0, c)
  {
  }

  lemma OneGroup(s: seq<byte>)
    requires |s| == 3
    ensures Digits(s) == Group(s[0], s[1], s[2])
  {
    hide Group;
    assert Digits(s[3..]) == [];
  }

  lemma WrittenAll(input: seq<byte>)
    ensures var n := |input|;
      Encoded(input) == Written(input, n) + Finish(n % 3, Last(input))
  {
    hide Group, En;
    var n, s := |input|, |input| % 3;
    var k := n - s;
    assert input == input[..k] + input[k..];
    DigitsAppend(input[..k], input[k..]);
    if s == 1 {
      GroupByOctet(input[k], 0, 0);
    } else if s == 2 {
      GroupByOctet(input[k], input[k + 1], 0);
    }
  }

  /** The switch in the encoder's loop. */
  method EncodeOctet(s: nat, l: byte, c: byte, out: array<byte>, j: nat, ghost top: nat) returns (s': nat, j': nat)
    requires s < 3 && j + (if s < 2 then 1 else 2) <= top <= out.Length
    modifies out
    ensures s' == (s + 1) % 3 && j' == j + if s < 2 then 1 else 2
    ensures out[..j'] == old(out[..j]) + Step(s, l, c) && out[top..] == old(out[top..])
  {
    hide En;
    match s {
      case 0 =>
        out[j] := En(c / 4 % 64);
        s', j' := 1, j + 1;
      case 1 =>
        out[j] := En(l % 4 * 16 + c / 16 % 16);
        s', j' := 2, j + 1;
      case _ =>
        out[j] := En(l % 16 * 4 + c / 64 % 4);
        out[j + 1] := En(c % 64);
        s', j' := 0, j + 2;
    }
    assert out[..j'] == out[..j] + out[j..j'];
  }

  /** The switch behind the loop, and the terminating NUL. */
  method EncodeEnd(s: nat, l: byte, out: array<byte>, j: nat) returns (j': nat)
    requires s < 3 && j + |Finish(s, l)| < out.Length
    modifies out
    ensures j' == j + |Finish(s, l)| && out[..j'] == old(out[..j]) + Finish(s, l) && out[j'] == 0
    ensures out[j' + 1..] == old(out[j' + 1..])
  {
    hide En;
    j' := j;
    match s {
      case 1 =>
        out[j], out[j + 1], out[j + 2] := En(l % 4 * 16), PAD, PAD;
        j' := j + 3;
      case 2 =>
        out[j], out[j + 1] := En(l % 16 * 4), PAD;
        j' := j + 2;
      case _ =>
    }
    out[j'] := 0;
    assert out[..j] == old(out[..j]) && out[j..j'] == Finish(s, l);
    assert out[..j'] == out[..j] + out[j..j'];
  }

  function EncodedLength(n: nat): nat { 4 * ((n + 2) / 3) }
  function WrittenLength(i: nat): nat { 4 * (i / 3) + i % 3 }

  lemma WrittenLengthNext(i: nat, n: nat)
    requires i < n
    ensures WrittenLength(i + 1) == WrittenLength(i) + (if i % 3 < 2 then 1 else 2) <= EncodedLength(n)
  {
  }

  lemma WrittenLengthAll(n: nat, l: byte)
    ensures WrittenLength(n) + |Finish(n % 3, l)| == EncodedLength(n)
  {
  }

  method Encode(input: seq<byte>, out: array<byte>) returns (j: nat)
    requires out.Length > 4 * ((|input| + 2) / 3)
    modifies out
    ensures j == 4 * ((|input| + 2) / 3)
    ensures out[..j] == Encoded(input) && out[j] == 0
    ensures out[j + 1..] == old(out[j + 1..])
  {
    ghost var top := EncodedLength(|input|) + 1;
    assert top == 4 * ((|input| + 2) / 3) + 1;
    hide *;
    var s, l: byte, i := 0, 0, 0;
    j := 0;
    NothingWritten(input, out[..]);
    while i < |input|
      invariant 0 <= i <= |input| && Emitted(input, i, out[..], s, l, j)
      invariant out[top..] == old(out[top..])
    {
      EmittedMeans(input, i, out[..], s, l, j);
      WrittenLengthNext(i, |input|);
      var c := input[i];
      ghost var before, k := out[..], j;
      ghost var s0, l0 := s, l;
      s, j := EncodeOctet(s, l, c, out, j, top);
      EmittedNext(input, i, before, out[..], s0, l0, k, s, j);
      l := c;
      i := i + 1;
    }
    EmittedMeans(input, i, out[..], s, l, j);
    WrittenAll(input);
    WrittenLengthAll(|input|, l);
    j := EncodeEnd(s, l, out, j);
  }

  /** The encoder after i octets. */
  ghost predicate Emitted(input: seq<byte>, i: nat, out: seq<byte>, s: nat, l: byte, j: nat)
    requires i <= |input|
  {
    && s == i % 3 && l == Last(input[..i])
    && j == WrittenLength(i) <= |out| && out[..j] == Written(input, i)
  }

  lemma EmittedMeans(input: seq<byte>, i: nat, out: seq<byte>, s: nat, l: byte, j: nat)
    requires i <= |input| && Emitted(input, i, out, s, l, j)
    ensures s == i % 3 && l == Last(input[..i])
    ensures j == WrittenLength(i) <= |out| && out[..j] == Written(input, i)
    ensures i == |input| ==> input[..i] == input
  {
  }

  lemma EmittedNext(input: seq<byte>, i: nat, before: seq<byte>, after: seq<byte>, s: nat, l: byte, j: nat, s': nat, j': nat)
    requires i < |input| && Emitted(input, i, before, s, l, j) && |after| == |before|
    requires s' == (s + 1) % 3 && j' == (j + if s < 2 then 1 else 2) <= |after|
    requires after[..j'] == before[..j] + Step(s, l, input[i])
    ensures Emitted(input, i + 1, after, s', input[i], j')
  {
    hide Written, Step;
    WrittenNext(input, i);
    WrittenLengthNext(i, |input|);
    assert Last(input[..i + 1]) == input[i];
  }

  lemma NothingWritten(input: seq<byte>, out: seq<byte>)
    ensures Emitted(input, 0, out, 0, 0, 0)
  {
    assert Written(input, 0) == [];
  }

  // ---------------------------------------------------------------------------------------------
  // base64_decode

  /** The octet that becomes complete with the digit e in position p of its group, after digit d. */
  function Completed(p: nat, d: byte, e: byte): seq<byte> {
    if p == 0 then [] else if p == 1 then [First(d, e)] else if p == 2 then [Second(d, e)] else [Third(d, e)]
  }

  /** The bits of the last digit that wait in the output for the next one. */
  function Carry(p: nat, d: byte): byte {
    if p == 1 then d % 64 * 4 else if p == 2 then d % 16 * 16 else d % 4 * 64
  }

  lemma {:induction false} OctetsNext(s: seq<byte>, c: byte)
    ensures Octets(s + [c]) == Octets(s) + Completed(|s| % 4, De(Last(s)), De(c))
    decreases |s|
  {
    hide *;
    if |s| >= 4 {
      OctetsNext(s[4..], c);
      GroupBefore(s[..4], s[4..], c);
      assert s == s[..4] + s[4..];
    } else {
      FewOctetsNext(s, c);
    }
  }

  /** The last character of a string, if there is one. */
  function Last(s: seq<byte>): byte { if s == [] then 0 else s[|s| - 1] }

  lemma GroupBefore(r: seq<byte>, rest: seq<byte>, c: byte)
    requires |r| == 4
    requires Octets(rest + [c]) == Octets(rest) + Completed(|rest| % 4, De(Last(rest)), De(c))
    ensures var s := r + rest;
      Octets(s + [c]) == Octets(s) + Completed(|s| % 4, De(Last(s)), De(c))
  {
    hide Octets, De, Completed, Three;
    var s := r + rest;
    var x := Completed(|rest| % 4, De(Last(rest)), De(c));
    OctetsOfGroup(r, rest);
    OctetsOfGroup(r, rest + [c]);
    assert s + [c] == r + (rest + [c]);
    assert (Three(r) + Octets(rest)) + x == Three(r) + (Octets(rest) + x);
    CompletesNothing(De(Last(s)), De(Last(rest)), De(c));
  }

  lemma CompletesNothing(d: byte, d': byte, e: byte)
    ensures Completed(0, d, e) == Completed(0, d', e) == []
  {
  }

  lemma FewOctetsNext(s: seq<byte>, c: byte)
    requires |s| < 4
    ensures Octets(s + [c]) == Octets(s) + Completed(|s| % 4, De(Last(s)), De(c))
  {
    hide De, Octets, First, Second, Third, Completed;
    if |s| == 0 {
      OctetsOfTwo(c, c);
      CompletesNothing(De(Last(s)), De(0), De(c));
      assert s + [c] == [c];
    } else if |s| == 1 {
      OctetsOfTwo(s[0], c);
      assert s == [s[0]] && s + [c] == [s[0], c];
      assert [] + Completed(1, De(s[0]), De(c)) == Completed(1, De(s[0]), De(c));
    } else if |s| == 2 {
      OctetsOfThree(s[0], s[1], c);
      OctetsOfTwo(s[0], s[1]);
      assert s == [s[0], s[1]] && s + [c] == [s[0], s[1], c];
    } else {
      OctetsOfFour(s[0], s[1], s[2], c);
      assert s == [s[0], s[1], s[2]] && s + [c] == [s[0], s[1], s[2], c];
    }
  }

  lemma OctetsOfTwo(a: byte, b: byte)
    ensures Octets([]) == [] && Octets([a]) == [] && Octets([a, b]) == Completed(1, De(a), De(b))
    ensures Completed(0, De(0), De(b)) == []
  {
  }

  lemma OctetsOfThree(a: byte, b: byte, c: byte)
    ensures Octets([a, b, c]) == Completed(1, De(a), De(b)) + Completed(2, De(b), De(c))
  {
  }

  lemma OctetsOfFour(a: byte, b: byte, c: byte, d: byte)
    ensures Octets([a, b, c, d]) == Octets([a, b, c]) + Completed(3, De(c), De(d))
  {
    OctetsOfThree(a, b, c);
    var r := [a, b, c, d];
    assert r[..4] == r && r[4..] == [];
  }

  /** How many octets i digits complete. */
  function Complete(i: nat): nat { 3 * (i / 4) + if i % 4 == 0 then 0 else i % 4 - 1 }

  lemma {:induction false} OctetsLength(s: seq<byte>)
    ensures |Octets(s)| == Complete(|s|)
    decreases |s|
  {
    if |s| >= 4 {
      OctetsLength(s[4..]);
    }
  }

  lemma CompleteNext(i: nat, n: nat)
    requires i < n && n % 4 == 0
    ensures Complete(i + 1) == Complete(i) + if i % 4 == 0 then 0 else 1
    ensures Complete(i) + (if i % 4 == 0 || i % 4 == 3 then 1 else 2) <= 3 * (n / 4)
  {
    assert i / 4 < n / 4;
  }

  /** The switch in the decoder's loop; p is the position in the group, c the digit's value. */
  method DecodeDigit(p: nat, ghost d: byte, c: byte, out: array<byte>, j: nat, ghost top: nat) returns (j': nat)
    requires p < 4 && c < 64 && j + (if p == 1 || p == 2 then 1 else 0) < top <= out.Length
    requires p > 0 ==> out[j] == Carry(p, d)
    modifies out
    ensures j' == j + if p == 0 then 0 else 1
    ensures out[..j'] == old(out[..j]) + Completed(p, d, c)
    ensures p < 3 ==> out[j'] == Carry(p + 1, c)
    ensures out[top..] == old(out[top..])
  {
    j' := j;
    match p {
      case 0 =>
        out[j] := c * 4 % 256;
      case 1 =>
        assert out[j] % 4 == 0;
        out[j] := out[j] + c / 16 % 4;
        j' := j + 1;
        out[j'] := c % 16 * 16;
      case 2 =>
        assert out[j] % 16 == 0;
        out[j] := out[j] + c / 4 % 16;
        j' := j + 1;
        out[j'] := c % 4 * 64;
      case _ =>
        assert out[j] % 64 == 0;
        out[j] := out[j] + c;
        j' := j + 1;
    }
    assert out[..j'] == out[..j] + out[j..j'];
  }

  /** One round of the decoder's loop, on a digit. */
  method DecodeNext(input: seq<byte>, i: nat, ghost d: byte, c: byte, out: array<byte>, j: nat) returns (j': nat)
    requires |input| % 4 == 0 && i < |input| && input[i] != PAD && IsDigit(input[i]) && c == De(input[i])
    requires SoFar(input, i, out[..], j, d) && out.Length >= 3 * (|input| / 4)
    modifies out
    ensures SoFar(input, i + 1, out[..], j', c)
    ensures out[3 * (|input| / 4)..] == old(out[3 * (|input| / 4)..])
  {
    hide De, SoFar, FirstPad, Octets, Complete, Carry, Completed;
    ghost var top := 3 * (|input| / 4);
    ghost var before := out[..];
    SoFarMeans(input, i, before, j, d);
    DigitIsSextet(input[i]);
    CompleteNext(i, |input|);
    j' := DecodeDigit(i % 4, d, c, out, j, top);
    SoFarNext(input, i, before, out[..], j, j', d, c);
  }

  /** Everything is decided by the length, the first padding character and the characters before it;
      and only the first 3*(n/4) places of the output are ever written, on malformed input too. */
  method Decode(input: seq<byte>, out: array<byte>) returns (j: nat)
    requires out.Length >= 3 * (|input| / 4)
    modifies out
    ensures j == |Decoded(input)| <= 3 * (|input| / 4)
    ensures out[..j] == Decoded(input)
    ensures out[3 * (|input| / 4)..] == old(out[3 * (|input| / 4)..])
  {
    if |input| % 4 != 0 {
      return 0;
    }
    hide De, Decoded, SoFar, FirstPad, Octets, Complete, Carry, Completed;
    ghost var top := 3 * (|input| / 4);
    ghost var d := De(0);
    var i := 0;
    j := 0;
    NothingYet(input, out[..]);
    while i < |input|
      invariant 0 <= i <= |input| && SoFar(input, i, out[..], j, d)
      invariant out[top..] == old(out[top..])
    {
      if input[i] == PAD {
        break;
      }
      if input[i] < DE_FIRST || input[i] > DE_LAST {
        Rejected(input, i, out[..], j, d);
        return 0;
      }
      var c := De(input[i]);
      if c == 255 {
        Rejected(input, i, out[..], j, d);
        return 0;
      }
      j := DecodeNext(input, i, d, c, out, j);
      d := c;
      i := i + 1;
    }
    Accepted(input, i, out[..], j, d);
  }

  /** The decoder after i digits: j octets are complete, and the last digit's spare bits wait in the
      next place. */
  ghost predicate SoFar(input: seq<byte>, i: nat, out: seq<byte>, j: nat, d: byte) {
    && i <= FirstPad(input) && Clean(input[..i])
    && j == Complete(i) <= |out| && out[..j] == Octets(input[..i])
    && d == De(Last(input[..i]))
    && (i % 4 != 0 ==> j < |out| && out[j] == Carry(i % 4, d))
  }

  lemma NothingYet(input: seq<byte>, out: seq<byte>)
    ensures SoFar(input, 0, out, 0, De(0))
  {
    OctetsLength([]);
  }

  lemma SoFarMeans(input: seq<byte>, i: nat, out: seq<byte>, j: nat, d: byte)
    requires SoFar(input, i, out, j, d)
    ensures j == Complete(i) <= |out| && (i % 4 != 0 ==> j < |out| && out[j] == Carry(i % 4, d))
  {
  }

  lemma SoFarNext(input: seq<byte>, i: nat, before: seq<byte>, after: seq<byte>, j: nat, j': nat, d: byte, c: byte)
    requires i < |input| && input[i] != PAD && IsDigit(input[i]) && c == De(input[i])
    requires SoFar(input, i, before, j, d) && |after| == |before|
    requires j' == (if i % 4 == 0 then j else j + 1) <= |after| && (i % 4 < 3 ==> j' < |after|)
    requires after[..j'] == before[..j] + Completed(i % 4, d, c)
    requires i % 4 < 3 ==> after[j'] == Carry(i % 4 + 1, c)
    ensures SoFar(input, i + 1, after, j', c)
  {
    hide Octets, Completed, Carry, De;
    PastDigit(input, i);
    OctetsNext(input[..i], input[i]);
    CompleteNext(i, i / 4 * 4 + 4);
    assert input[..i + 1] == input[..i] + [input[i]];
  }

  lemma DigitIsSextet(c: byte)
    requires IsDigit(c)
    ensures De(c) < 64
  {
  }

  lemma PastDigit(input: seq<byte>, i: nat)
    requires i < |input| && i <= FirstPad(input) && input[i] != PAD
    ensures i < FirstPad(input)
  {
  }

  lemma Rejected(input: seq<byte>, i: nat, out: seq<byte>, j: nat, d: byte)
    requires SoFar(input, i, out, j, d) && i < |input| && input[i] != PAD && !IsDigit(input[i])
    ensures Decoded(input) == []
  {
    PastDigit(input, i);
    assert input[..FirstPad(input)][i] == input[i];
  }

  lemma Accepted(input: seq<byte>, i: nat, out: seq<byte>, j: nat, d: byte)
    requires SoFar(input, i, out, j, d) && |input| % 4 == 0 && i <= |input| && (i < |input| ==> input[i] == PAD)
    ensures out[..j] == Decoded(input) && j == |Decoded(input)|
    ensures j <= 3 * (|input| / 4)
  {
    hide Octets;
    assert i == FirstPad(input);
    assert i / 4 <= |input| / 4;
    assert i % 4 != 0 ==> i / 4 < |input| / 4;
  }
}
