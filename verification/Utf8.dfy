/** UTF-8 as the program meets it: text is written as UTF-8, and each chunk of bytes read is decoded on its own
    and lossily, every ill-formed piece becoming one replacement character. */
module Utf8 {
  import opened Basics

  type Bytes = seq<Byte>

  const REPLACEMENT: char := '\U{FFFD}'

  // ----- encoding -------------------------------------------------------------------------------

  function EncodeChar(ch: char): (b: Bytes)
    ensures 1 <= |b| <= 4
  {
    var n := ch as int;
    if n < 0x80 then [n]
    else if n < 0x800 then [0xC0 + n / 64, 0x80 + n % 64]
    else if n < 0x1_0000 then [0xE0 + n / 0x1000, 0x80 + n / 64 % 64, 0x80 + n % 64]
    else [0xF0 + n / 0x4_0000, 0x80 + n / 0x1000 % 64, 0x80 + n / 64 % 64, 0x80 + n % 64]
  }

  function Encode(text: string): Bytes {
    if text == [] then [] else EncodeChar(text[0]) + Encode(text[1..])
  }

  // ----- lossy decoding -------------------------------------------------------------------------

  predicate Continuation(b: Byte) { 0x80 <= b < 0xC0 }

  /** How many bytes a well-formed sequence with this lead has; 0 for a byte that cannot lead. */
  function Width(lead: Byte): nat {
    if lead < 0x80 then 1
    else if 0xC2 <= lead < 0xE0 then 2
    else if 0xE0 <= lead < 0xF0 then 3
    else if 0xF0 <= lead < 0xF5 then 4
    else 0
  }

  /** The second byte is restricted further, against overlong forms, surrogates and values out of range. */
  predicate SecondFits(lead: Byte, b: Byte) {
    && Continuation(b)
    && (lead == 0xE0 ==> 0xA0 <= b)
    && (lead == 0xED ==> b < 0xA0)
    && (lead == 0xF0 ==> 0x90 <= b)
    && (lead == 0xF4 ==> b < 0x90)
  }

  /** The byte at position i carries on a sequence with this lead. */
  predicate Fits(lead: Byte, i: nat, b: Byte) {
    0 < i < Width(lead) && if i == 1 then SecondFits(lead, b) else Continuation(b)
  }

  /** How many bytes the first step takes: the longest start of `b` that is a start of a sequence. */
  function Matched(b: Bytes, i: nat): (n: nat)
    requires 0 < i <= |b|
    ensures i <= n <= |b| && (forall j | i <= j < n :: Fits(b[0], j, b[j]))
    ensures n < |b| ==> !Fits(b[0], n, b[n])
    decreases |b| - i
  {
    if i < |b| && Fits(b[0], i, b[i]) then Matched(b, i + 1) else i
  }

  function Size(b: Bytes): (n: nat)
    requires b != []
    ensures 1 <= n <= |b|
  {
    Matched(b, 1)
  }

  function Bits(b: Byte, mark: int): int { b as int - mark }

  /** The value of a well-formed sequence. */
  function Value(b: Bytes): int
    requires b != []
  {
    if |b| == 1 then b[0]
    else if |b| == 2 then Bits(b[0], 0xC0) * 64 + Bits(b[1], 0x80)
    else if |b| == 3 then Bits(b[0], 0xE0) * 0x1000 + Bits(b[1], 0x80) * 64 + Bits(b[2], 0x80)
    else if |b| == 4 then
      Bits(b[0], 0xF0) * 0x4_0000 + Bits(b[1], 0x80) * 0x1000 + Bits(b[2], 0x80) * 64 + Bits(b[3], 0x80)
    else 0
  }

  predicate IsScalar(n: int) { 0 <= n < 0xD800 || 0xE000 <= n < 0x11_0000 }

  /** The character of the first step. */
  function First(b: Bytes): char
    requires b != []
  {
    var n := Size(b);
    if n == Width(b[0]) then
      FullIsScalar(b);
      Value(b[..n]) as char
    else REPLACEMENT
  }

  /** `String::from_utf8_lossy`. */
  function Lossy(b: Bytes): string
    decreases |b|
  {
    if b == [] then [] else [First(b)] + Lossy(b[Size(b)..])
  }

  lemma FullIsScalar(b: Bytes)
    requires b != [] && Size(b) == Width(b[0])
    ensures IsScalar(Value(b[..Size(b)]))
  {
    var n := Size(b);
    assert forall j | 1 <= j < n :: Fits(b[0], j, b[j]);
  }

  // ----- round trip ---------------------------------------------------------------------------

  /** `e` is one well-formed sequence. */
  predicate Full(e: Bytes) { e != [] && |e| == Width(e[0]) && forall j | 1 <= j < |e| :: Fits(e[0], j, e[j]) }

  lemma EncodedIsFull(ch: char)
    ensures Full(EncodeChar(ch))
  {
  }

  lemma FullMatches(e: Bytes, rest: Bytes)
    requires Full(e)
    ensures var b := e + rest; Size(b) == |e| && b[..|e|] == e && b[|e|..] == rest
  {
    var b := e + rest;
    var n := Size(b);
    assert forall j | 1 <= j < |e| :: b[j] == e[j];
    assert n > |e| ==> Fits(b[0], |e|, b[|e|]);
  }

  lemma Digits3(n: nat)
    ensures n == n / 0x1000 * 0x1000 + n / 64 % 64 * 64 + n % 64
  {
    var m := n / 64;
    assert n == m * 64 + n % 64 && m == m / 64 * 64 + m % 64;
    assert m / 64 == n / 0x1000;
  }

  lemma Digits4(n: nat)
    ensures n == n / 0x4_0000 * 0x4_0000 + n / 0x1000 % 64 * 0x1000 + n / 64 % 64 * 64 + n % 64
  {
    Digits3(n);
    var m := n / 0x1000;
    assert m == m / 64 * 64 + m % 64 && m / 64 == n / 0x4_0000;
  }

  lemma ValueOfEncoded(ch: char)
    ensures Value(EncodeChar(ch)) == ch as int
  {
    var n := ch as int;
    Digits3(n);
    Digits4(n);
  }

  /** Decoding all of an encoded text gives the text. */
  lemma {:induction false} LossyOfEncoded(text: string)
    ensures Lossy(Encode(text)) == text
  {
    if text != [] {
      EncodedIsFull(text[0]);
      FullMatches(EncodeChar(text[0]), Encode(text[1..]));
      ValueOfEncoded(text[0]);
      LossyOfEncoded(text[1..]);
      assert [text[0]] + text[1..] == text;
    }
  }

  // ----- chunks -------------------------------------------------------------------------------

  /** Position p lies between two steps of decoding the whole. */
  predicate AtBoundary(b: Bytes, p: nat)
    requires p <= |b|
    decreases |b|
  {
    p == 0 || (Size(b) <= p && AtBoundary(b[Size(b)..], p - Size(b)))
  }

  lemma SizeOfPrefix(b: Bytes, p: nat)
    requires b != [] && 0 < p <= |b|
    ensures Size(b[..p]) == if Size(b) <= p then Size(b) else p
    ensures Size(b) <= p ==> First(b[..p]) == First(b)
    ensures Size(b) > p ==> First(b[..p]) == REPLACEMENT
  {
    var a := b[..p];
    MatchedPrefix(b, p, 1);
    if Size(b) <= p {
      assert a[..Size(b)] == b[..Size(b)];
    } else {
      assert Fits(b[0], p, b[p]);
    }
  }

  lemma {:induction false} MatchedPrefix(b: Bytes, p: nat, i: nat)
    requires 0 < i <= p <= |b|
    ensures Matched(b[..p], i) == if Matched(b, i) <= p then Matched(b, i) else p
    decreases p - i
  {
    if i < p && Fits(b[0], i, b[i]) {
      MatchedPrefix(b, p, i + 1);
    }
  }

  /** Two texts decoded apart, against one decoded whole: the same, or more replacement characters. */
  predicate Apart(same: bool, left: string, right: string, whole: string) {
    if same then left + right == whole
    else Count(left, REPLACEMENT) + Count(right, REPLACEMENT) > Count(whole, REPLACEMENT)
  }

  lemma ApartBehind(same: bool, ch: char, left: string, right: string, whole: string)
    requires Apart(same, left, right, whole)
    ensures Apart(same, [ch] + left, right, [ch] + whole)
  {
    Assoc([ch], left, right);
    CountConcat([ch], left, REPLACEMENT);
    CountConcat([ch], whole, REPLACEMENT);
  }

  /** Decoding two parts apart gives the text of the whole exactly when they meet at a boundary of the whole;
      otherwise it gives more replacement characters. */
  lemma {:induction false} SplitIff(b: Bytes, p: nat)
    requires p <= |b|
    ensures Apart(AtBoundary(b, p), Lossy(b[..p]), Lossy(b[p..]), Lossy(b))
    decreases |b|
  {
    if p == 0 {
      assert b[0..] == b && [] + Lossy(b) == Lossy(b);
    } else if Size(b) <= p {
      var n := Size(b);
      var rest := b[n..];
      SizeOfPrefix(b, p);
      SplitIff(rest, p - n);
      assert b[..p][n..] == rest[..p - n] && rest[p - n..] == b[p..];
      ApartBehind(AtBoundary(rest, p - n), First(b), Lossy(rest[..p - n]), Lossy(b[p..]), Lossy(rest));
    } else {
      SplitInside(b, p);
    }
  }

  lemma SplitInside(b: Bytes, p: nat)
    requires b != [] && 0 < p < Size(b)
    ensures Count(Lossy(b[..p]), REPLACEMENT) + Count(Lossy(b[p..]), REPLACEMENT) > Count(Lossy(b), REPLACEMENT)
  {
    var n := Size(b);
    SizeOfPrefix(b, p);
    assert b[..p][p..] == [];
    assert Lossy(b[..p]) == [REPLACEMENT] + [] == [REPLACEMENT];
    assert forall j | p <= j < n :: Fits(b[0], j, b[j]);
    LooseContinuations(b, p, n);
    assert Lossy(b)[1..] == Lossy(b[n..]);
  }

  lemma {:induction false} LooseContinuations(b: Bytes, p: nat, n: nat)
    requires p <= n <= |b| && forall j | p <= j < n :: Continuation(b[j])
    ensures Count(Lossy(b[p..]), REPLACEMENT) == n - p + Count(Lossy(b[n..]), REPLACEMENT)
    decreases n - p
  {
    if p < n {
      var rest := b[p..];
      assert rest[0] == b[p] && Width(rest[0]) == 0 && Size(rest) == 1;
      assert rest[1..] == b[p + 1..];
      assert Lossy(rest)[1..] == Lossy(b[p + 1..]);
      LooseContinuations(b, p + 1, n);
    }
  }

  function Concat(chunks: seq<Bytes>): Bytes {
    if chunks == [] then [] else chunks[0] + Concat(chunks[1..])
  }

  /** The text of chunks decoded one by one. */
  function LossyAll(chunks: seq<Bytes>): string {
    if chunks == [] then [] else Lossy(chunks[0]) + LossyAll(chunks[1..])
  }

  /** No chunk ends inside a character, or inside an ill-formed piece, of the rest of the stream. */
  predicate Aligned(chunks: seq<Bytes>) {
    chunks == [] || (AtBoundary(Concat(chunks), |chunks[0]|) && Aligned(chunks[1..]))
  }

  /** Chunked decoding gives the text of the whole stream if and only if the chunks are aligned; otherwise it has
      more replacement characters. */
  lemma {:induction false} ChunksIff(chunks: seq<Bytes>)
    ensures Aligned(chunks) ==> LossyAll(chunks) == Lossy(Concat(chunks))
    ensures !Aligned(chunks) ==> Count(LossyAll(chunks), REPLACEMENT) > Count(Lossy(Concat(chunks)), REPLACEMENT)
  {
    if chunks != [] {
      var first, rest := chunks[0], Concat(chunks[1..]);
      var whole := first + rest;
      assert whole[..|first|] == first && whole[|first|..] == rest;
      ChunksIff(chunks[1..]);
      SplitIff(whole, |first|);
      CountConcat(Lossy(first), LossyAll(chunks[1..]), REPLACEMENT);
      CountConcat(Lossy(first), Lossy(rest), REPLACEMENT);
    }
  }
}
