/** UTF-8 as the Rust standard library validates and lossily decodes it.

    A Rust `String` is the byte sequence it stores, so text is modelled as bytes. The
    reference is the encoder: a byte sequence is well formed when it is the encoding of
    some scalar values (RFC 3629, section 4). */
module Utf8 {
  import opened Wrappers

  type Byte = b: int | 0 <= b < 256
  type Bytes = seq<Byte>

  /** A Unicode scalar value: a code point that is not a surrogate. */
  type Scalar = c: int | 0 <= c < 0xD800 || 0xE000 <= c < 0x11_0000

  /** U+FFFD, encoded. */
  const REPLACEMENT: Bytes := [0xEF, 0xBF, 0xBD]

  function EncodeChar(c: Scalar): (s: Bytes)
    ensures 1 <= |s| <= 4
  {
    if c < 0x80 then [c]
    else if c < 0x800 then [0xC0 + c / 64, 0x80 + c % 64]
    else if c < 0x1_0000 then [0xE0 + c / 4096, 0x80 + c / 64 % 64, 0x80 + c % 64]
    else [0xF0 + c / 262144, 0x80 + c / 4096 % 64, 0x80 + c / 64 % 64, 0x80 + c % 64]
  }

  function Encode(cs: seq<Scalar>): Bytes {
    if cs == [] then [] else EncodeChar(cs[0]) + Encode(cs[1..])
  }

  ghost predicate WellFormed(s: Bytes) {
    exists cs :: Encode(cs) == s
  }

  /** `p` begins the encoding of some character. */
  ghost predicate IsCharPrefix(p: Bytes) {
    exists c: Scalar :: p <= EncodeChar(c)
  }

  predicate IsContinuation(b: Byte) {
    0x80 <= b < 0xC0
  }

  // ---- One validation step -------------------------------------------------------

  /** What a validator finds at the start of a non-empty input: a whole character, an
      ill-formed sequence, or a sequence that only the end of input cuts short. */
  datatype Step = Complete(len: nat) | Invalid(len: nat) | Incomplete

  /** Length announced by a first byte; 0 for a byte that starts nothing. */
  function Width(b: Byte): (w: nat)
    ensures w <= 4
  {
    if b < 0x80 then 1
    else if 0xC2 <= b < 0xE0 then 2
    else if 0xE0 <= b < 0xF0 then 3
    else if 0xF0 <= b < 0xF5 then 4
    else 0
  }

  /** Whether `b` may follow the first byte `first` directly. */
  predicate SecondByte(first: Byte, b: Byte) {
    && IsContinuation(b)
    && (first == 0xE0 ==> 0xA0 <= b)
    && (first == 0xED ==> b < 0xA0)
    && (first == 0xF0 ==> 0x90 <= b)
    && (first == 0xF4 ==> b < 0x90)
  }

  function Scan(s: Bytes): (r: Step)
    requires s != []
    ensures r.Complete? || r.Invalid? ==> 1 <= r.len <= |s|
    ensures r.Incomplete? ==> |s| <= 3
  {
    var w := Width(s[0]);
    if w == 0 then Invalid(1)
    else if w == 1 then Complete(1)
    else if |s| == 1 then Incomplete
    else if !SecondByte(s[0], s[1]) then Invalid(1)
    else if w == 2 then Complete(2)
    else if |s| == 2 then Incomplete
    else if !IsContinuation(s[2]) then Invalid(2)
    else if w == 3 then Complete(3)
    else if |s| == 3 then Incomplete
    else if !IsContinuation(s[3]) then Invalid(3)
    else Complete(4)
  }

  /** The character encoded by a complete sequence. */
  function DecodeChar(s: Bytes): (c: Scalar)
    requires s != [] && Scan(s) == Complete(|s|)
  {
    var b0: int := s[0];
    if |s| == 1 then b0
    else
      var b1: int := s[1];
      if |s| == 2 then (b0 - 0xC0) * 64 + (b1 - 0x80)
      else
        var b2: int := s[2];
        if |s| == 3 then (b0 - 0xE0) * 4096 + (b1 - 0x80) * 64 + (b2 - 0x80)
        else
          var b3: int := s[3];
          (b0 - 0xF0) * 262144 + (b1 - 0x80) * 4096 + (b2 - 0x80) * 64 + (b3 - 0x80)
  }

  lemma EncodeDecodeChar(s: Bytes)
    requires s != [] && Scan(s) == Complete(|s|)
    ensures EncodeChar(DecodeChar(s)) == s
  {
    if |s| == 3 {
      EncodeDecodeThree(s);
    } else if |s| == 4 {
      EncodeDecodeFour(s);
    }
  }

  lemma EncodeDecodeThree(s: Bytes)
    requires |s| == 3 && Scan(s) == Complete(3)
    ensures EncodeChar(DecodeChar(s)) == s
  {
    var c, b1: int, b2: int := DecodeChar(s), s[1] - 0x80, s[2] - 0x80;
    var high: int := s[0] - 0xE0;
    assert c == (high * 64 + b1) * 64 + b2 && 0x800 <= c < 0x1_0000;
    assert c / 64 == high * 64 + b1;
  }

  lemma EncodeDecodeFour(s: Bytes)
    requires |s| == 4 && Scan(s) == Complete(4)
    ensures EncodeChar(DecodeChar(s)) == s
  {
    hide EncodeChar;
    var b0: int, b1: int, b2: int, b3: int := s[0] - 0xF0, s[1] - 0x80, s[2] - 0x80, s[3] - 0x80;
    assert DecodeChar(s) == b0 * 262144 + b1 * 4096 + b2 * 64 + b3 >= 0x1_0000;
    FourDigits(b0, b1, b2, b3);
    EncodeLong(DecodeChar(s));
  }

  lemma EncodeLong(c: Scalar)
    requires c >= 0x1_0000
    ensures EncodeChar(c) == [0xF0 + c / 262144, 0x80 + c / 4096 % 64, 0x80 + c / 64 % 64, 0x80 + c % 64]
  {}

  lemma FourDigits(b0: nat, b1: nat, b2: nat, b3: nat)
    requires b1 < 64 && b2 < 64 && b3 < 64
    ensures var c := b0 * 262144 + b1 * 4096 + b2 * 64 + b3;
      c / 262144 == b0 && c / 4096 % 64 == b1 && c / 64 % 64 == b2 && c % 64 == b3
  {
    var c := b0 * 262144 + b1 * 4096 + b2 * 64 + b3;
    assert c / 64 == b0 * 4096 + b1 * 64 + b2;
    assert c / 4096 == b0 * 64 + b1;
  }

  /** An encoded character is one complete step, whatever follows it. */
  lemma ScanEncoded(c: Scalar, rest: Bytes)
    ensures Scan(EncodeChar(c) + rest) == Complete(|EncodeChar(c)|)
  {
  }

  lemma ScanCutShort(c: Scalar, n: nat)
    requires 0 < n < |EncodeChar(c)|
    ensures Scan(EncodeChar(c)[..n]) == Incomplete
  {
  }

  /** A shortest-possible completion of a sequence cut short. */
  function Completion(s: Bytes): (t: Bytes)
    requires s != [] && Scan(s) == Incomplete
    ensures s <= t && Scan(t) == Complete(|t|)
  {
    var second: Byte := if s[0] == 0xE0 then 0xA0 else if s[0] == 0xF0 then 0x90 else 0x80;
    s + (if |s| == 1 then [second] else [])
      + (if Width(s[0]) >= 3 && |s| <= 2 then [0x80] else [])
      + (if Width(s[0]) == 4 then [0x80] else [])
  }

  /** The byte tables mean what the encoder says: a step is complete exactly when the
      input starts with an encoded character, incomplete exactly when the whole input is a
      proper prefix of one, and otherwise skips the maximal subpart (section 3.9 of the
      Unicode Standard): the longest prefix that begins some character, or one byte. */
  lemma ScanMeaning(s: Bytes)
    requires s != []
    ensures Scan(s).Complete? <==> exists c: Scalar :: EncodeChar(c) <= s
    ensures forall c: Scalar :: EncodeChar(c) <= s ==> Scan(s) == Complete(|EncodeChar(c)|)
    ensures Scan(s) == Incomplete <==> exists c: Scalar :: s < EncodeChar(c)
    ensures Scan(s).Invalid? ==>
              && (Scan(s).len > 1 ==> IsCharPrefix(s[..Scan(s).len]))
              && forall k :: Scan(s).len < k <= |s| ==> !IsCharPrefix(s[..k])
  {
    hide EncodeChar, DecodeChar, IsCharPrefix;
    forall c: Scalar | EncodeChar(c) <= s
      ensures Scan(s) == Complete(|EncodeChar(c)|)
    {
      ScanEncoded(c, s[|EncodeChar(c)|..]);
      assert s == EncodeChar(c) + s[|EncodeChar(c)|..];
    }
    forall c: Scalar | s < EncodeChar(c)
      ensures Scan(s) == Incomplete
    {
      ScanCutShort(c, |s|);
      assert s == EncodeChar(c)[..|s|];
    }
    match Scan(s)
    case Complete(n) =>
      EncodeDecodeChar(s[..n]);
    case Incomplete =>
      EncodeDecodeChar(Completion(s));
    case Invalid(n) =>
      if n > 1 {
        EncodeDecodeChar(Completion(s[..n]));
        BeginsCharacter(s[..n], DecodeChar(Completion(s[..n])));
      }
      forall k | n < k <= |s|
        ensures !IsCharPrefix(s[..k])
      {
        InvalidIsNoPrefix(s[..k], n);
      }
  }

  lemma BeginsCharacter(p: Bytes, c: Scalar)
    requires p <= EncodeChar(c)
    ensures IsCharPrefix(p)
  {}

  lemma InvalidIsNoPrefix(p: Bytes, n: nat)
    requires p != [] && Scan(p) == Invalid(n)
    ensures !IsCharPrefix(p)
  {
    if c: Scalar :| p <= EncodeChar(c) {
      if |p| < |EncodeChar(c)| {
        ScanCutShort(c, |p|);
      } else {
        ScanEncoded(c, []);
      }
      assert false;
    }
  }

  /** More input never changes a step that has been decided. */
  lemma ScanStable(a: Bytes, b: Bytes)
    requires a != [] && Scan(a) != Incomplete
    ensures Scan(a + b) == Scan(a)
  {
  }

  lemma ScanTake(s: Bytes)
    requires s != [] && Scan(s).Complete?
    ensures Scan(s[..Scan(s).len]) == Scan(s)
  {
  }

  // ---- Whole inputs --------------------------------------------------------------

  /** Length of the longest well-formed prefix that ends where a step fails. */
  function ValidUpTo(s: Bytes): (n: nat)
    ensures n <= |s|
  {
    if s != [] && Scan(s).Complete? then Scan(s).len + ValidUpTo(s[Scan(s).len..]) else 0
  }

  function DecodeAll(s: Bytes): seq<Scalar>
    requires ValidUpTo(s) == |s|
  {
    if s == [] then [] else ScanTake(s); [DecodeChar(s[..Scan(s).len])] + DecodeAll(s[Scan(s).len..])
  }

  lemma {:induction false} EncodeDecodeAll(s: Bytes)
    requires ValidUpTo(s) == |s|
    ensures Encode(DecodeAll(s)) == s
  {
    hide Scan, EncodeChar, DecodeChar;
    if s != [] {
      var n := Scan(s).len;
      ScanTake(s);
      var c := DecodeChar(s[..n]);
      calc {
        Encode(DecodeAll(s));
        { assert DecodeAll(s) == [c] + DecodeAll(s[n..]); }
        EncodeChar(c) + Encode(DecodeAll(s[n..]));
        { EncodeDecodeChar(s[..n]); EncodeDecodeAll(s[n..]); }
        s[..n] + s[n..];
        s;
      }
    }
  }

  lemma {:induction false} EncodeValidates(cs: seq<Scalar>)
    ensures ValidUpTo(Encode(cs)) == |Encode(cs)|
  {
    if cs != [] {
      ScanEncoded(cs[0], Encode(cs[1..]));
      assert Encode(cs)[|EncodeChar(cs[0])|..] == Encode(cs[1..]);
      EncodeValidates(cs[1..]);
    }
  }

  lemma WellFormedIffValid(s: Bytes)
    ensures WellFormed(s) <==> ValidUpTo(s) == |s|
  {
    if ValidUpTo(s) == |s| {
      EncodeDecodeAll(s);
    }
    if WellFormed(s) {
      var cs :| Encode(cs) == s;
      EncodeValidates(cs);
    }
  }

  /** `String::from_utf8_lossy`: every maximal ill-formed subpart, a sequence cut short by
      the end included, becomes one U+FFFD. */
  function Lossy(s: Bytes): Bytes {
    if s == [] then []
    else match Scan(s)
      case Complete(n) => s[..n] + Lossy(s[n..])
      case Invalid(n) => REPLACEMENT + Lossy(s[n..])
      case Incomplete => REPLACEMENT
  }

  /** The text that no later input can change, and the bytes still waiting for more. */
  function Decoded(s: Bytes): Bytes {
    if s == [] then []
    else match Scan(s)
      case Complete(n) => s[..n] + Decoded(s[n..])
      case Invalid(n) => REPLACEMENT + Decoded(s[n..])
      case Incomplete => []
  }

  function Leftover(s: Bytes): (rest: Bytes)
    ensures |rest| <= 3
    ensures rest != [] ==> Scan(rest) == Incomplete
  {
    if s == [] then []
    else match Scan(s)
      case Complete(n) => Leftover(s[n..])
      case Invalid(n) => Leftover(s[n..])
      case Incomplete => s
  }

  /** What a decided first step contributes to the text. */
  function Piece(s: Bytes): Bytes
    requires s != [] && Scan(s) != Incomplete
  {
    if Scan(s).Complete? then s[..Scan(s).len] else REPLACEMENT
  }

  lemma DecodedUnfold(s: Bytes)
    requires s != []
    ensures Scan(s) != Incomplete ==>
              var rest := s[Scan(s).len..];
              Decoded(s) == Piece(s) + Decoded(rest) && Leftover(s) == Leftover(rest)
    ensures Scan(s) == Incomplete ==> Decoded(s) == [] && Leftover(s) == s
  {
    hide Scan;
  }

  /** Decoding a concatenation is decoding its first part, then the rest with what the
      first part left over put in front. */
  lemma {:induction false} DecodedConcat(a: Bytes, b: Bytes)
    ensures Decoded(a + b) == Decoded(a) + Decoded(Leftover(a) + b)
    ensures Leftover(a + b) == Leftover(Leftover(a) + b)
  {
    if a == [] {
      assert a + b == b && Decoded(a) == [] && Leftover(a) == [];
    } else if Scan(a).Incomplete? {
      DecodedUnfold(a);
    } else {
      DecodedConcat(a[Scan(a).len..], b);
      DecodedConcatStep(a, b);
    }
  }

  lemma DecodedConcatStep(a: Bytes, b: Bytes)
    requires a != [] && Scan(a) != Incomplete
    requires var rest := a[Scan(a).len..];
             && Decoded(rest + b) == Decoded(rest) + Decoded(Leftover(rest) + b)
             && Leftover(rest + b) == Leftover(Leftover(rest) + b)
    ensures Decoded(a + b) == Decoded(a) + Decoded(Leftover(a) + b)
    ensures Leftover(a + b) == Leftover(Leftover(a) + b)
  {
    hide Scan, Decoded, Leftover;
    var n, rest := Scan(a).len, a[Scan(a).len..];
    ScanStable(a, b);
    assert (a + b)[..n] == a[..n] && (a + b)[n..] == rest + b;
    DecodedUnfold(a);
    DecodedUnfold(a + b);
    var later := Decoded(Leftover(rest) + b);
    assert Piece(a) + (Decoded(rest) + later) == Piece(a) + Decoded(rest) + later;
  }

  lemma {:induction false} LossyIsDecodedThenFlushed(s: Bytes)
    ensures Lossy(s) == Decoded(s) + Lossy(Leftover(s))
  {
    if s != [] && !Scan(s).Incomplete? {
      LossyIsDecodedThenFlushed(s[Scan(s).len..]);
    }
  }

  /** Well-formed input is decoded to itself: no U+FFFD is added and nothing waits. */
  lemma {:induction false} LossyOfWellFormed(s: Bytes)
    requires WellFormed(s)
    ensures Lossy(s) == s && Decoded(s) == s && Leftover(s) == []
  {
    WellFormedIffValid(s);
    if s != [] {
      var n := Scan(s).len;
      WellFormedIffValid(s[n..]);
      LossyOfWellFormed(s[n..]);
      assert s == s[..n] + s[n..];
    }
  }

  lemma {:induction false} EncodeConcat(a: seq<Scalar>, b: seq<Scalar>)
    ensures Encode(a + b) == Encode(a) + Encode(b)
  {
    hide EncodeChar;
    if a == [] {
      assert a + b == b;
    } else {
      calc {
        Encode(a + b);
        { assert (a + b)[1..] == a[1..] + b; }
        EncodeChar(a[0]) + Encode(a[1..] + b);
        { EncodeConcat(a[1..], b); }
        EncodeChar(a[0]) + (Encode(a[1..]) + Encode(b));
        EncodeChar(a[0]) + Encode(a[1..]) + Encode(b);
        Encode(a) + Encode(b);
      }
    }
  }

  lemma WellFormedConcat(s: Bytes, t: Bytes)
    requires WellFormed(s) && WellFormed(t)
    ensures WellFormed(s + t)
  {
    var a :| Encode(a) == s;
    var b :| Encode(b) == t;
    EncodeConcat(a, b);
  }

  /** The lossy text is always well formed. */
  lemma {:induction false} LossyIsWellFormed(s: Bytes)
    ensures WellFormed(Lossy(s))
  {
    hide Scan, EncodeChar, DecodeChar;
    assert Encode([]) == [];
    if s != [] {
      EncodeReplacement();
      var n := if Scan(s).Incomplete? then |s| else Scan(s).len;
      var piece := if Scan(s).Complete? then s[..n] else REPLACEMENT;
      assert WellFormed(piece) by {
        if Scan(s).Complete? {
          ScanTake(s);
          EncodeDecodeChar(piece);
          assert Encode([DecodeChar(piece)]) == piece;
        }
      }
      if !Scan(s).Incomplete? {
        LossyIsWellFormed(s[n..]);
        WellFormedConcat(piece, Lossy(s[n..]));
      }
    }
  }

  lemma EncodeReplacement()
    ensures Encode([0xFFFD]) == REPLACEMENT
  {
    assert Encode([]) == [];
    assert EncodeChar(0xFFFD) == REPLACEMENT;
  }

  /** `std::str::from_utf8`: success, or the length of the well-formed prefix together with
      the length of the ill-formed sequence (none when only the end cuts it short). */
  datatype Validation = Valid | Error(validUpTo: nat, errorLen: Option<nat>)

  method FromUtf8(s: Bytes) returns (r: Validation)
    ensures r.Valid? <==> WellFormed(s)
    ensures r.Valid? ==> ValidUpTo(s) == |s|
    ensures r.Error? ==>
              && r.validUpTo == ValidUpTo(s) < |s|
              && Scan(s[r.validUpTo..]) == match r.errorLen case Some(n) => Invalid(n) case None => Incomplete
  {
    hide Scan, WellFormed, ValidUpTo;
    WellFormedIffValid(s);
    var index := 0;
    assert s[0..] == s;
    while index < |s|
      invariant index <= |s|
      invariant ValidUpTo(s) == index + ValidUpTo(s[index..])
    {
      ValidUpToStep(s[index..]);
      match Scan(s[index..])
      case Complete(n) =>
        assert s[index..][n..] == s[index + n..];
        index := index + n;
      case Invalid(n) =>
        return Error(index, Some(n));
      case Incomplete =>
        return Error(index, None);
    }
    return Valid;
  }

  lemma ValidUpToStep(s: Bytes)
    requires s != []
    ensures Scan(s).Complete? ==> ValidUpTo(s) == Scan(s).len + ValidUpTo(s[Scan(s).len..])
    ensures !Scan(s).Complete? ==> ValidUpTo(s) == 0
  {
    hide Scan;
  }

  // ---- Character boundaries --------------------------------------------------------

  /** `str::is_char_boundary`. */
  predicate IsBoundary(s: Bytes, i: nat)
    requires i <= |s|
  {
    i == 0 || i == |s| || !IsContinuation(s[i])
  }

  lemma CompleteTailContinues(s: Bytes, i: nat)
    requires s != [] && Scan(s).Complete? && 0 < i < Scan(s).len
    ensures IsContinuation(s[i])
  {
  }

  lemma CompleteHeadStarts(s: Bytes)
    requires s != [] && Scan(s).Complete?
    ensures !IsContinuation(s[0]) && Scan(s).len <= 4
  {
  }

  lemma NothingIsWellFormed()
    ensures WellFormed([])
  {
    assert Encode([]) == [];
  }

  /** Well-formed text can be cut at any character boundary. */
  lemma {:induction false} CutAtBoundary(s: Bytes, i: nat)
    requires WellFormed(s) && i <= |s| && IsBoundary(s, i)
    ensures WellFormed(s[..i]) && WellFormed(s[i..])
    decreases |s|
  {
    hide Scan, Encode, WellFormed;
    NothingIsWellFormed();
    if i == 0 {
      assert s[..i] == [] && s[i..] == s;
    } else if i == |s| {
      assert s[..i] == s && s[i..] == [];
    } else {
      WellFormedIffValid(s);
      var n := Scan(s).len;
      if i < n {
        CompleteTailContinues(s, i);
        assert false;
      }
      var rest := s[n..];
      WellFormedIffValid(rest);
      CutAtBoundary(rest, i - n);
      assert rest[i - n..] == s[i..];
      assert s[..i] == s[..n] + rest[..i - n];
      FirstIsWellFormed(s);
      WellFormedConcat(s[..n], rest[..i - n]);
    }
  }

  lemma FirstIsWellFormed(s: Bytes)
    requires s != [] && Scan(s).Complete?
    ensures WellFormed(s[..Scan(s).len])
  {
    hide Scan;
    var n := Scan(s).len;
    ScanTake(s);
    EncodeDecodeChar(s[..n]);
    assert Encode([]) == [];
    assert Encode([DecodeChar(s[..n])]) == s[..n] + [];
  }

  /** Every position of well-formed text is at most three bytes past a boundary. */
  lemma {:induction false} BoundaryNear(s: Bytes, i: nat) returns (j: nat)
    requires WellFormed(s) && i <= |s|
    ensures j <= i <= j + 3 && IsBoundary(s, j)
    ensures j < |s| ==> !IsContinuation(s[j])
    decreases |s|
  {
    hide Scan;
    WellFormedIffValid(s);
    if i == 0 || s == [] {
      j := 0;
      if s != [] { CompleteHeadStarts(s); }
    } else {
      var n := Scan(s).len;
      CompleteHeadStarts(s);
      if i < n {
        j := 0;
      } else {
        WellFormedIffValid(s[n..]);
        j := BoundaryNear(s[n..], i - n);
        j := j + n;
      }
    }
  }

  // ---- Lossy decoding, fragment by fragment -----------------------------------------------

  /** A whole character, a maximal ill-formed subpart, or a character that the end cuts short. */
  datatype Fragment = Whole(bytes: Bytes) | IllFormed(bytes: Bytes) | CutShort(bytes: Bytes)

  /** What the fragment is, before `rest`; said by the encoder alone. */
  ghost predicate Fits(f: Fragment, rest: Bytes) {
    match f
    case Whole(b) => exists c: Scalar :: EncodeChar(c) == b
    case CutShort(b) => b != [] && rest == [] && exists c: Scalar :: b < EncodeChar(c)
    case IllFormed(b) =>
      && b != [] && (|b| == 1 || IsCharPrefix(b))
      && !(exists c: Scalar :: EncodeChar(c) <= b + rest) && !(exists c: Scalar :: b + rest < EncodeChar(c))
      && forall k :: |b| < k <= |b + rest| ==> !IsCharPrefix((b + rest)[..k])
  }

  /** The fragments, in order, make up `s`. */
  ghost predicate Splits(s: Bytes, fs: seq<Fragment>) {
    if fs == [] then s == []
    else
      var n := |fs[0].bytes|;
      fs[0].bytes != [] && fs[0].bytes <= s && Fits(fs[0], s[n..]) && Splits(s[n..], fs[1..])
  }

  /** The text of the fragments: one U+FFFD for each that is no character. */
  function TextOf(fs: seq<Fragment>): Bytes {
    if fs == [] then []
    else (if fs[0].Whole? then fs[0].bytes else EncodeChar(0xFFFD)) + TextOf(fs[1..])
  }

  /** The fragments that no later byte can change. */
  function Settled(fs: seq<Fragment>): seq<Fragment> {
    if fs == [] then [] else (if fs[0].CutShort? then [] else [fs[0]]) + Settled(fs[1..])
  }

  /** The bytes of a character that the end cuts short. */
  function Open(fs: seq<Fragment>): Bytes {
    if fs != [] && fs[|fs| - 1].CutShort? then fs[|fs| - 1].bytes else []
  }

  /** The fragment that one validation step finds. */
  function FirstFragment(s: Bytes): Fragment
    requires s != []
  {
    match Scan(s)
    case Complete(n) => Whole(s[..n])
    case Invalid(n) => IllFormed(s[..n])
    case Incomplete => CutShort(s)
  }

  function Fragments(s: Bytes): seq<Fragment> {
    if s == [] then [] else [FirstFragment(s)] + Fragments(s[|FirstFragment(s).bytes|..])
  }

  /** A step finds a fragment that fits, and no other fits. */
  lemma OneFragmentFits(s: Bytes, f: Fragment)
    requires s != [] && f.bytes != [] && f.bytes <= s
    ensures Fits(f, s[|f.bytes|..]) <==> f == FirstFragment(s)
  {
    hide Scan, EncodeChar, IsCharPrefix;
    ScanMeaning(s);
    var rest := s[|f.bytes|..];
    assert s == f.bytes + rest;
    if f == FirstFragment(s) {
      FirstFragmentFits(s);
    } else if Fits(f, rest) {
      FittingIsFirst(s, f);
    }
  }

  lemma FirstFragmentFits(s: Bytes)
    requires s != []
    ensures var f := FirstFragment(s);
      f.bytes != [] && f.bytes <= s && Fits(f, s[|f.bytes|..])
  {
    hide Scan, EncodeChar, IsCharPrefix;
    ScanMeaning(s);
    var f := FirstFragment(s);
    assert s == f.bytes + s[|f.bytes|..];
    match Scan(s)
    case Complete(n) =>
      var c: Scalar :| EncodeChar(c) <= s;
      assert EncodeChar(c) == s[..n];
    case Invalid(n) =>
    case Incomplete =>
  }

  lemma FittingIsFirst(s: Bytes, f: Fragment)
    requires s != [] && f.bytes != [] && f.bytes <= s && Fits(f, s[|f.bytes|..])
    ensures f == FirstFragment(s)
  {
    hide Scan, EncodeChar, IsCharPrefix;
    ScanMeaning(s);
    var rest := s[|f.bytes|..];
    assert s == f.bytes + rest;
    match f
    case Whole(b) =>
      var c: Scalar :| EncodeChar(c) == b;
      assert EncodeChar(c) <= s;
    case CutShort(b) =>
      assert b == s;
    case IllFormed(_) =>
  }

  /** Every byte sequence splits into fragments in one way. */
  lemma {:induction false} SplitsOneWay(s: Bytes, fs: seq<Fragment>)
    ensures Splits(s, fs) <==> fs == Fragments(s)
    decreases |fs|
  {
    hide Fits, FirstFragment;
    if fs != [] && s != [] {
      FirstFragmentFits(s);
      var f := fs[0];
      if f.bytes != [] && f.bytes <= s {
        OneFragmentFits(s, f);
        SplitsOneWay(s[|f.bytes|..], fs[1..]);
        assert fs == [f] + fs[1..];
      }
    }
  }

  /** Lossy decoding, said without it: the text of the fragments. What is decided at once is the
      text of those that are not cut short, and what waits is the one that is. */
  lemma {:induction false} LossyByFragments(s: Bytes, fs: seq<Fragment>)
    requires Splits(s, fs)
    ensures Lossy(s) == TextOf(fs)
    ensures Decoded(s) == TextOf(Settled(fs)) && Leftover(s) == Open(fs)
    decreases |fs|
  {
    hide Fits, FirstFragment, Lossy, Decoded, Leftover, EncodeChar, TextOf, Settled, Open;
    FragmentsOfNothing();
    if fs != [] {
      var rest := s[|fs[0].bytes|..];
      OneFragmentFits(s, fs[0]);
      LossyByFragments(rest, fs[1..]);
      FragmentStep(s);
      if fs[0].CutShort? {
        CutShortIsLast(fs[0], rest);
        assert fs[1..] == [];
      }
      TextStep(fs);
    }
  }

  lemma FragmentsOfNothing()
    ensures Lossy([]) == [] && Decoded([]) == [] && Leftover([]) == []
    ensures TextOf([]) == [] && Settled([]) == [] && Open([]) == []
  {}

  lemma CutShortIsLast(f: Fragment, rest: Bytes)
    requires Fits(f, rest) && f.CutShort?
    ensures rest == []
  {}

  /** What one fragment adds to the text. */
  function FragmentText(f: Fragment): Bytes {
    if f.Whole? then f.bytes else EncodeChar(0xFFFD)
  }

  lemma FragmentStep(s: Bytes)
    requires s != []
    ensures var f := FirstFragment(s);
      && |f.bytes| <= |s|
      && var rest := s[|f.bytes|..];
         && Lossy(s) == FragmentText(f) + (if f.CutShort? then [] else Lossy(rest))
         && Decoded(s) == (if f.CutShort? then [] else FragmentText(f) + Decoded(rest))
         && Leftover(s) == if f.CutShort? then f.bytes else Leftover(rest)
  {
    hide Scan, EncodeChar;
    assert EncodeChar(0xFFFD) == REPLACEMENT by { ReplacementChar(); }
  }

  lemma ReplacementChar()
    ensures EncodeChar(0xFFFD) == REPLACEMENT
  {}

  lemma OpenStep(fs: seq<Fragment>)
    requires fs != [] && (fs[0].CutShort? ==> fs[1..] == [])
    ensures Open(fs) == if fs[0].CutShort? then fs[0].bytes else Open(fs[1..])
  {
    if |fs| > 1 {
      assert fs[1..][|fs| - 2] == fs[|fs| - 1];
    }
  }

  lemma TextStep(fs: seq<Fragment>)
    requires fs != [] && (fs[0].CutShort? ==> fs[1..] == [])
    ensures TextOf(fs) == FragmentText(fs[0]) + TextOf(fs[1..])
    ensures TextOf(Settled(fs)) == (if fs[0].CutShort? then [] else FragmentText(fs[0])) + TextOf(Settled(fs[1..]))
    ensures Open(fs) == if fs[0].CutShort? then fs[0].bytes else Open(fs[1..])
  {
    hide EncodeChar, Open;
    OpenStep(fs);
    var settled := Settled(fs[1..]);
    if fs[0].CutShort? {
      assert Settled(fs) == [] + settled == settled;
    } else {
      assert Settled(fs) == [fs[0]] + settled && ([fs[0]] + settled)[1..] == settled;
    }
  }

  lemma {:induction false} FragmentsSplit(s: Bytes)
    ensures Splits(s, Fragments(s))
  {
    SplitsOneWay(s, Fragments(s));
  }
}
