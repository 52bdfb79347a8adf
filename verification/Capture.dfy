/** Bounded capture and incremental decoding of an agent's output streams. */
module Capture {
  import opened Wrappers
  import opened Utf8

  // ---- Incremental decoding --------------------------------------------------------

  /** Decodes everything decidable in `bytes` and hands back the undecided tail. */
  method DecodeUtf8(bytes: Bytes) returns (output: Bytes, leftover: Bytes)
    ensures output == Decoded(bytes)
    ensures leftover == Leftover(bytes)
  {
    hide Scan, WellFormed, Decoded, Leftover, ValidUpTo;
    output := [];
    var remaining := bytes;
    while true
      invariant output + Decoded(remaining) == Decoded(bytes)
      invariant Leftover(remaining) == Leftover(bytes)
      decreases |remaining|
    {
      var check := FromUtf8(remaining);
      DecodedAfterValidation(remaining);
      match check
      case Valid =>
        return output + remaining, [];
      case Error(valid, errorLen) =>
        output := output + remaining[..valid];
        match errorLen
        case Some(length) =>
          output := output + REPLACEMENT;
          remaining := remaining[valid + length..];
        case None =>
          return output, remaining[valid..];
    }
  }

  lemma DecodedAfterValidation(s: Bytes)
    ensures var v := ValidUpTo(s);
            && (v == |s| ==> Decoded(s) == s && Leftover(s) == [])
            && (v < |s| && Scan(s[v..]) == Incomplete ==> Decoded(s) == s[..v] && Leftover(s) == s[v..])
    ensures var v := ValidUpTo(s);
            v < |s| && Scan(s[v..]).Invalid? ==>
              var rest := s[v + Scan(s[v..]).len..];
              Decoded(s) == s[..v] + REPLACEMENT + Decoded(rest) && Leftover(s) == Leftover(rest)
  {
    hide Scan, Decoded, Leftover, ValidUpTo;
    DecodedFromValidPrefix(s);
    DecodedEmpty();
    var v := ValidUpTo(s);
    var t := s[v..];
    if t != [] {
      DecodedUnfold(t);
      if Scan(t).Invalid? {
        var rest := t[Scan(t).len..];
        assert rest == s[v + Scan(t).len..];
        assert s[..v] + (REPLACEMENT + Decoded(rest)) == s[..v] + REPLACEMENT + Decoded(rest);
      }
    }
  }

  lemma {:induction false} DecodedFromValidPrefix(s: Bytes)
    ensures var v := ValidUpTo(s);
            && Decoded(s) == s[..v] + Decoded(s[v..]) && Leftover(s) == Leftover(s[v..])
            && (v < |s| ==> !Scan(s[v..]).Complete?)
    decreases |s|
  {
    hide Scan, Decoded, Leftover, ValidUpTo;
    var v := ValidUpTo(s);
    if s == [] {
      assert s[v..] == s;
      DecodedEmpty();
    } else {
      ValidUpToStep(s);
      if Scan(s).Complete? {
        var n, rest := Scan(s).len, s[Scan(s).len..];
        DecodedFromValidPrefix(rest);
        DecodedUnfold(s);
        assert rest[v - n..] == s[v..];
        assert s[..n] + (rest[..v - n] + Decoded(s[v..])) == s[..v] + Decoded(s[v..]);
      } else {
        assert s[v..] == s;
      }
    }
  }

  lemma DecodedEmpty()
    ensures Decoded([]) == [] && Leftover([]) == []
  {
  }

  class Utf8StreamDecoder {
    var pending: Bytes
    ghost var stream: Bytes   // every byte pushed since the decoder was last empty
    ghost var emitted: Bytes  // the text returned for them so far

    ghost predicate Valid()
      reads this
    {
      emitted == Decoded(stream) && pending == Leftover(stream)
    }

    constructor ()
      ensures Valid() && stream == [] && emitted == []
    {
      pending, stream, emitted := [], [], [];
    }

    /** However the stream has been cut so far, the text emitted is what the whole of it
        decides, and at most three bytes wait. */
    method Push(bytes: Bytes) returns (output: Bytes)
      requires Valid()
      modifies this
      ensures Valid() && |pending| <= 3
      ensures stream == old(stream) + bytes && emitted == old(emitted) + output
    {
      var leftover;
      DecodedConcat(stream, bytes);
      if pending == [] {
        assert pending + bytes == bytes;
        output, leftover := DecodeUtf8(bytes);
      } else {
        var combined := pending + bytes;
        pending := [];
        output, leftover := DecodeUtf8(combined);
      }
      pending := leftover;
      stream, emitted := stream + bytes, emitted + output;
    }

    /** The text of the whole stream is its one-shot lossy decoding: one U+FFFD is added for a
        character cut short, and nothing else. */
    method Finish() returns (text: Bytes)
      requires Valid()
      modifies this
      ensures Valid() && stream == [] && emitted == []
      ensures old(emitted) + text == Lossy(old(stream))
      ensures text == if old(pending) == [] then [] else EncodeChar(0xFFFD)
      ensures forall fs :: Splits(old(stream), fs) ==>
        old(emitted) + text == TextOf(fs) && old(emitted) == TextOf(Settled(fs)) && old(pending) == Open(fs)
      ensures WellFormed(old(stream)) ==> text == [] && old(emitted) == old(stream)
    {
      LossyIsDecodedThenFlushed(stream);
      PendingIsOneReplacement(pending);
      if WellFormed(stream) {
        LossyOfWellFormed(stream);
      }
      forall fs | Splits(stream, fs)
        ensures Lossy(stream) == TextOf(fs) && emitted == TextOf(Settled(fs)) && pending == Open(fs)
      {
        LossyByFragments(stream, fs);
      }
      if pending == [] {
        text := [];
      } else {
        text := Lossy(pending);
      }
      pending, stream, emitted := [], [], [];
    }
  }

  lemma PendingIsOneReplacement(pending: Bytes)
    requires pending != [] ==> Scan(pending) == Incomplete
    ensures Lossy(pending) == if pending == [] then [] else EncodeChar(0xFFFD)
  {
    EncodeReplacement();
  }

  function Flatten(chunks: seq<Bytes>): Bytes {
    if chunks == [] then [] else chunks[0] + Flatten(chunks[1..])
  }

  /** Text emitted for `chunks` pushed one after another on top of `pending`, and the bytes
      pending after them. */
  function PushAll(pending: Bytes, chunks: seq<Bytes>): (Bytes, Bytes)
    decreases |chunks|
  {
    if chunks == [] then ([], pending)
    else
      var s := pending + chunks[0];
      var (text, rest) := PushAll(Leftover(s), chunks[1..]);
      (Decoded(s) + text, rest)
  }

  lemma {:induction false} PushAllDecodesTheConcatenation(pending: Bytes, chunks: seq<Bytes>)
    requires Leftover(pending) == pending && Decoded(pending) == []
    ensures PushAll(pending, chunks) ==
            (Decoded(pending + Flatten(chunks)), Leftover(pending + Flatten(chunks)))
    decreases |chunks|
  {
    hide Scan, Decoded, Leftover;
    if chunks == [] {
      assert pending + [] == pending;
    } else {
      var s, later := pending + chunks[0], Flatten(chunks[1..]);
      LeftoverIsPending(s);
      PushAllDecodesTheConcatenation(Leftover(s), chunks[1..]);
      DecodedConcat(s, later);
      assert pending + Flatten(chunks) == s + later;
    }
  }

  lemma {:induction false} LeftoverIsPending(s: Bytes)
    ensures Leftover(Leftover(s)) == Leftover(s) && Decoded(Leftover(s)) == []
    decreases |s|
  {
    hide Scan;
    if s != [] && !Scan(s).Incomplete? {
      LeftoverIsPending(s[Scan(s).len..]);
    }
  }

  /** The decoded text does not depend on where a stream is cut: any chunks, empty ones
      included, give the lossy decoding of their concatenation, with at most three bytes
      pending; a well-formed stream comes back unchanged, with none. */
  lemma AnyCutDecodesAlike(chunks: seq<Bytes>)
    ensures var (text, pending) := PushAll([], chunks);
            && text + Lossy(pending) == Lossy(Flatten(chunks))
            && |pending| <= 3
            && (WellFormed(Flatten(chunks)) ==> text == Flatten(chunks) && pending == [])
            && forall fs :: Splits(Flatten(chunks), fs) ==>
                 text + Lossy(pending) == TextOf(fs) && text == TextOf(Settled(fs)) && pending == Open(fs)
  {
    forall fs | Splits(Flatten(chunks), fs)
      ensures Lossy(Flatten(chunks)) == TextOf(fs)
      ensures Decoded(Flatten(chunks)) == TextOf(Settled(fs)) && Leftover(Flatten(chunks)) == Open(fs)
    {
      LossyByFragments(Flatten(chunks), fs);
    }
    PushAllDecodesTheConcatenation([], chunks);
    var stream := Flatten(chunks);
    assert [] + stream == stream;
    LossyIsDecodedThenFlushed(stream);
    if WellFormed(stream) {
      LossyOfWellFormed(stream);
    }
  }

  // ---- Bounded capture --------------------------------------------------------------

  datatype OutputMetadata = OutputMetadata(
    limitBytes: nat, stdoutBytes: nat, droppedBytes: nat, truncated: bool)

  datatype CapturedOutput = CapturedOutput(text: Bytes, metadata: OutputMetadata)

  function Min(a: nat, b: nat): (m: nat)
    ensures m <= a && m <= b && (m == a || m == b)
  {
    if a < b then a else b
  }

  function HeadLimit(limit: nat): nat { limit / 4 }

  /** The first bytes of a stream, up to a quarter of the limit. */
  function HeadOf(limit: nat, stream: Bytes): (r: Bytes)
    ensures |r| == Min(|stream|, HeadLimit(limit))
  {
    stream[..Min(|stream|, HeadLimit(limit))]
  }

  function Last(n: nat, s: Bytes): (r: Bytes)
    ensures |r| == Min(|s|, n)
  {
    s[|s| - Min(|s|, n)..]
  }

  function AfterHead(limit: nat, stream: Bytes): Bytes {
    stream[|HeadOf(limit, stream)|..]
  }

  /** The last bytes of what follows the head, up to the rest of the limit. */
  function TailOf(limit: nat, stream: Bytes): Bytes {
    Last(limit - HeadLimit(limit), AfterHead(limit, stream))
  }

  lemma HeadAppend(limit: nat, s: Bytes, bytes: Bytes)
    ensures var take := Min(|bytes|, HeadLimit(limit) - |HeadOf(limit, s)|);
            && HeadOf(limit, s + bytes) == HeadOf(limit, s) + bytes[..take]
            && AfterHead(limit, s + bytes) == AfterHead(limit, s) + bytes[take..]
  {
  }

  lemma LastAppend(n: nat, s: Bytes, bytes: Bytes)
    ensures |bytes| >= n ==> Last(n, s + bytes) == bytes[|bytes| - n..]
    ensures |bytes| < n ==>
              var over := |Last(n, s)| + |bytes| - n;
              Last(n, s + bytes) == Last(n, s)[if over > 0 then over else 0..] + bytes
  {
  }

  /** `head` without the fewest bytes, at most three, whose removal leaves well-formed text;
      unchanged when no such cut exists. */
  function TrimmedHead(head: Bytes, cut: nat): (r: Bytes)
    decreases 4 - cut
  {
    if cut > 3 || cut > |head| then head
    else if ValidUpTo(head[..|head| - cut]) == |head| - cut then head[..|head| - cut]
    else TrimmedHead(head, cut + 1)
  }

  /** The bytes without the last `cut`. */
  function Without(bytes: Bytes, cut: nat): Bytes
    requires cut <= |bytes|
  {
    bytes[..|bytes| - cut]
  }

  /** `cut` is the least number of bytes, from `least` to three, whose removal leaves well-formed
      text. */
  ghost predicate IsLeastCut(bytes: Bytes, least: nat, cut: nat) {
    && least <= cut <= 3 && cut <= |bytes| && WellFormed(Without(bytes, cut))
    && forall c: nat :: least <= c < cut ==> !WellFormed(Without(bytes, c))
  }

  /** What trimming keeps, said without it. */
  lemma {:induction false} TrimmedByLeastCut(bytes: Bytes, least: nat)
    ensures (exists cut :: IsLeastCut(bytes, least, cut) && TrimmedHead(bytes, least) == Without(bytes, cut))
            || (TrimmedHead(bytes, least) == bytes
                && forall cut: nat :: least <= cut <= 3 && cut <= |bytes| ==> !WellFormed(Without(bytes, cut)))
    decreases 4 - least
  {
    hide WellFormed, ValidUpTo;
    if least <= 3 && least <= |bytes| {
      WellFormedIffValid(Without(bytes, least));
      if WellFormed(Without(bytes, least)) {
        assert IsLeastCut(bytes, least, least);
      } else {
        TrimmedByLeastCut(bytes, least + 1);
        if cut :| IsLeastCut(bytes, least + 1, cut) && TrimmedHead(bytes, least + 1) == Without(bytes, cut) {
          assert IsLeastCut(bytes, least, cut);
        }
      }
    }
  }

  method TrimIncompleteUtf8Tail(bytes: Bytes) returns (r: Bytes)
    ensures r == TrimmedHead(bytes, 0)
    ensures (exists cut :: IsLeastCut(bytes, 0, cut) && r == Without(bytes, cut))
            || (r == bytes && forall cut: nat :: cut <= 3 && cut <= |bytes| ==> !WellFormed(Without(bytes, cut)))
  {
    TrimmedByLeastCut(bytes, 0);
    hide IsLeastCut;
    for cut := 0 to Min(3, |bytes|) + 1
      invariant TrimmedHead(bytes, 0) == TrimmedHead(bytes, cut)
    {
      var end := |bytes| - cut;
      var check := FromUtf8(bytes[..end]);
      WellFormedIffValid(bytes[..end]);
      if check.Valid? {
        return bytes[..end];
      }
    }
    return bytes;
  }

  /** How many of the first three bytes, counted up to the first that starts a character,
      continue a character begun before. */
  function LeadingContinuations(tail: Bytes, n: nat): (count: nat)
    requires n <= 3 && n <= |tail|
    ensures n <= count <= 3 && count <= |tail|
    decreases 3 - n
  {
    if n < 3 && n < |tail| && IsContinuation(tail[n]) then LeadingContinuations(tail, n + 1) else n
  }

  /** First character boundary of `text` at or after `start`. */
  function NextBoundary(text: Bytes, start: nat): (i: nat)
    requires start <= |text|
    ensures start <= i <= |text| && IsBoundary(text, i)
    decreases |text| - start
  {
    if start < |text| && !IsBoundary(text, start) then NextBoundary(text, start + 1) else start
  }

  function Fitted(text: Bytes, limit: nat): Bytes {
    if |text| <= limit then text else text[NextBoundary(text, |text| - limit)..]
  }

  /** A text too long keeps what follows the first character boundary from which the rest fits. */
  lemma {:induction false} FittedFromBoundary(text: Bytes, start: nat)
    requires start <= |text|
    ensures forall i :: start <= i < NextBoundary(text, start) ==> !IsBoundary(text, i)
    decreases |text| - start
  {
    if start < |text| && !IsBoundary(text, start) {
      FittedFromBoundary(text, start + 1);
    }
  }

  method FitToLimit(text: Bytes, limit: nat) returns (r: Bytes, cut: bool)
    ensures r == Fitted(text, limit) && cut == (|text| > limit)
    ensures cut ==> exists k :: |text| - limit <= k <= |text| && r == text[k..] && IsBoundary(text, k)
                                && forall i :: |text| - limit <= i < k ==> !IsBoundary(text, i)
    ensures !cut ==> r == text
  {
    if |text| > limit { FittedFromBoundary(text, |text| - limit); }
    if |text| <= limit {
      return text, false;
    }
    var start := |text| - limit;
    while start < |text| && !IsBoundary(text, start)
      invariant |text| - limit <= start <= |text|
      invariant NextBoundary(text, |text| - limit) == NextBoundary(text, start)
    {
      start := start + 1;
    }
    return text[start..], true;
  }

  /** The two kept pieces of a stream longer than the limit. */
  function KeptHead(limit: nat, stream: Bytes): Bytes {
    TrimmedHead(HeadOf(limit, stream), 0)
  }

  function KeptTail(limit: nat, stream: Bytes): Bytes {
    var tail := TailOf(limit, stream);
    tail[LeadingContinuations(tail, 0)..]
  }

  /** The record `Finish` makes of a stream. */
  function Captured(limit: nat, stream: Bytes): CapturedOutput {
    var truncated := |stream| > limit;
    var kept := if truncated then KeptHead(limit, stream) + KeptTail(limit, stream)
                else HeadOf(limit, stream) + TailOf(limit, stream);
    CapturedOutput(
      Fitted(Lossy(kept), limit),
      OutputMetadata(limit, |stream|,
                     if truncated && |kept| < |stream| then |stream| - |kept| else 0,
                     truncated || |Lossy(kept)| > limit))
  }

  /** Every captured text is a well-formed string no longer than the limit, and the bytes
      kept for it and the bytes reported dropped add up to the bytes received. */
  lemma CapturedWithinLimit(limit: nat, stream: Bytes)
    ensures var out := Captured(limit, stream);
            && WellFormed(out.text) && |out.text| <= limit
            && (if |stream| > limit
                then |KeptHead(limit, stream)| + |KeptTail(limit, stream)| + out.metadata.droppedBytes == |stream|
                else HeadOf(limit, stream) + TailOf(limit, stream) == stream && out.metadata.droppedBytes == 0)
  {
    hide Scan, Lossy, TrimmedHead, LeadingContinuations;
    var kept := if |stream| > limit then KeptHead(limit, stream) + KeptTail(limit, stream)
                else HeadOf(limit, stream) + TailOf(limit, stream);
    LossyIsWellFormed(kept);
    FittedIsBounded(Lossy(kept), limit);
    TrimmedHeadIsPrefix(HeadOf(limit, stream), 0);
  }

  lemma FittedIsBounded(text: Bytes, limit: nat)
    requires WellFormed(text)
    ensures WellFormed(Fitted(text, limit)) && |Fitted(text, limit)| <= limit
  {
    hide WellFormed;
    if |text| > limit {
      CutAtBoundary(text, NextBoundary(text, |text| - limit));
    }
  }

  lemma TrimmedHeadIsPrefix(head: Bytes, cut: nat)
    ensures TrimmedHead(head, cut) <= head
    decreases 4 - cut
  {
  }

  /** The head of well-formed text is trimmed to well-formed text by at most three bytes. */
  lemma TrimmedHeadOfWellFormed(s: Bytes, n: nat)
    requires WellFormed(s) && n <= |s|
    ensures WellFormed(TrimmedHead(s[..n], 0)) && n <= |TrimmedHead(s[..n], 0)| + 3
    ensures TrimmedHead(s[..n], 0) <= s
  {
    hide Scan;
    var j := BoundaryNear(s, n);
    CutAtBoundary(s, j);
    assert s[..n][..j] == s[..j];
    WellFormedIffValid(s[..j]);
    TrimFindsACut(s[..n], 0, n - j);
  }

  lemma TrimFindsACut(head: Bytes, cut: nat, good: nat)
    requires cut <= good <= 3 && good <= |head| && ValidUpTo(head[..|head| - good]) == |head| - good
    ensures WellFormed(TrimmedHead(head, cut)) && TrimmedHead(head, cut) <= head
    ensures |head| <= |TrimmedHead(head, cut)| + good
    decreases good - cut
  {
    hide ValidUpTo;
    WellFormedIffValid(head[..|head| - cut]);
    if cut < good && ValidUpTo(head[..|head| - cut]) != |head| - cut {
      TrimFindsACut(head, cut + 1, good);
    }
  }

  /** Dropping leading continuation bytes from the tail of well-formed text, at most three,
      leaves well-formed text. */
  lemma TailOfWellFormed(s: Bytes, m: nat)
    requires WellFormed(s) && m <= |s|
    ensures WellFormed(s[m + LeadingContinuations(s[m..], 0)..])
  {
    hide Scan;
    var count := LeadingContinuations(s[m..], 0);
    LeadingAreContinuations(s[m..], 0);
    if count == 3 && m + 3 < |s| {
      var j := BoundaryNear(s, m + 3);
      assert j < m + 3 ==> IsContinuation(s[m..][j - m]);
    }
    CutAtBoundary(s, m + count);
  }

  lemma LeadingAreContinuations(tail: Bytes, n: nat)
    requires n <= 3 && n <= |tail|
    ensures var count := LeadingContinuations(tail, n);
            && (forall i :: n <= i < count ==> IsContinuation(tail[i]))
            && (count < 3 && count < |tail| ==> !IsContinuation(tail[count]))
    decreases 3 - n
  {
  }

  /** Capturing a well-formed stream adds no U+FFFD. Within the limit the text is the stream;
      beyond it the text is a prefix joined to a suffix, both ending at character boundaries
      and together at most six bytes short of the limit, and the dropped bytes are exactly
      those of the stream that are missing from the text. */
  lemma CapturedTextOfWellFormedStream(limit: nat, stream: Bytes)
    requires WellFormed(stream)
    ensures var out := Captured(limit, stream);
            if |stream| <= limit then
              out.text == stream && !out.metadata.truncated && out.metadata.droppedBytes == 0
            else
              && out.text == KeptHead(limit, stream) + KeptTail(limit, stream)
              && KeptHead(limit, stream) <= stream && WellFormed(KeptHead(limit, stream))
              && |KeptTail(limit, stream)| <= |stream| && WellFormed(KeptTail(limit, stream))
              && KeptTail(limit, stream) == stream[|stream| - |KeptTail(limit, stream)|..]
              && limit <= |out.text| + 6
              && |out.text| + out.metadata.droppedBytes == |stream|
              && out.metadata.truncated
  {
    hide Captured, WellFormed, KeptHead, KeptTail;
    if |stream| <= limit {
      CapturedWhole(limit, stream);
    } else {
      KeptPiecesOfWellFormed(limit, stream);
      CapturedInPieces(limit, stream);
    }
  }

  lemma CapturedWhole(limit: nat, stream: Bytes)
    requires WellFormed(stream) && |stream| <= limit
    ensures var out := Captured(limit, stream);
            out.text == stream && !out.metadata.truncated && out.metadata.droppedBytes == 0
  {
    hide Scan, Lossy, WellFormed, NextBoundary, KeptHead, KeptTail;
    assert HeadOf(limit, stream) + TailOf(limit, stream) == stream;
    LossyOfWellFormed(stream);
  }

  lemma CapturedInPieces(limit: nat, stream: Bytes)
    requires WellFormed(stream) && |stream| > limit
    ensures var (out, h, t) := (Captured(limit, stream), KeptHead(limit, stream), KeptTail(limit, stream));
            && out.text == h + t && limit <= |h + t| + 6
            && |h + t| + out.metadata.droppedBytes == |stream| && out.metadata.truncated
  {
    hide Scan, Lossy, WellFormed, NextBoundary, KeptHead, KeptTail, HeadOf, TailOf, HeadLimit;
    var h, t := KeptHead(limit, stream), KeptTail(limit, stream);
    KeptPiecesOfWellFormed(limit, stream);
    WellFormedConcat(h, t);
    LossyOfWellFormed(h + t);
  }

  lemma KeptPiecesOfWellFormed(limit: nat, stream: Bytes)
    requires WellFormed(stream) && |stream| > limit
    ensures var h, t := KeptHead(limit, stream), KeptTail(limit, stream);
            && h <= stream && WellFormed(h) && HeadLimit(limit) - 3 <= |h| <= HeadLimit(limit)
            && |t| <= limit - HeadLimit(limit) <= |t| + 3
            && WellFormed(t) && t == stream[|stream| - |t|..]
  {
    hide Scan, TrimmedHead, LeadingContinuations, WellFormed;
    TrimmedHeadOfWellFormed(stream, HeadLimit(limit));
    TrimmedHeadIsPrefix(HeadOf(limit, stream), 0);
    var m := |stream| - (limit - HeadLimit(limit));
    assert TailOf(limit, stream) == stream[m..];
    TailOfWellFormed(stream, m);
    assert KeptTail(limit, stream) == stream[m + LeadingContinuations(stream[m..], 0)..];
  }

  class BoundedOutputCapture {
    const limit: nat
    const headLimit: nat
    const tailLimit: nat
    var head: Bytes
    var tail: Bytes
    var total: nat
    ghost var stream: Bytes  // every byte pushed

    ghost predicate Valid()
      reads this
    {
      && 1 <= limit && headLimit == HeadLimit(limit) && tailLimit == limit - headLimit
      && head == HeadOf(limit, stream)
      && tail == TailOf(limit, stream)
      && total == |stream|
    }

    constructor (limit: nat)
      ensures Valid() && stream == []
      ensures this.limit == if limit < 1 then 1 else limit
      ensures 4 * headLimit <= this.limit < 4 * headLimit + 4 && headLimit + tailLimit == this.limit
    {
      var bound := if limit < 1 then 1 else limit;
      this.limit := bound;
      headLimit := bound / 4;
      tailLimit := bound - bound / 4;
      head, tail, total, stream := [], [], 0, [];
    }

    /** Whatever the chunking, the head is the stream's prefix and the tail the last bytes of
        the rest. */
    method Push(bytes: Bytes)
      requires Valid()
      modifies `head, `tail, `total, `stream
      ensures Valid() && stream == old(stream) + bytes
    {
      hide HeadOf, AfterHead, Last, Min, HeadLimit;
      total := total + |bytes|;
      var remaining := bytes;
      HeadAppend(limit, stream, bytes);
      if headLimit > |head| {
        var take := Min(|remaining|, headLimit - |head|);
        head := head + remaining[..take];
        remaining := remaining[take..];
      }
      LastAppend(tailLimit, AfterHead(limit, stream), remaining);
      stream := stream + bytes;
      if remaining == [] {
        return;
      }
      if tailLimit == 0 {
        return;
      }
      if |remaining| >= tailLimit {
        tail := remaining[|remaining| - tailLimit..];
      } else {
        var overflow := if |tail| + |remaining| > tailLimit then |tail| + |remaining| - tailLimit else 0;
        ghost var before := tail;
        for popped := 0 to overflow
          invariant tail == before[popped..]
          modifies `tail
        {
          tail := tail[1..];
        }
        tail := tail + remaining;
      }
    }

    method Finish() returns (output: CapturedOutput)
      requires Valid()
      modifies this
      ensures output == Captured(limit, old(stream))
      ensures output.metadata.limitBytes == limit && output.metadata.stdoutBytes == |old(stream)|
      ensures |old(stream)| > limit ==> output.metadata.truncated
      ensures |old(stream)| <= limit ==> output.metadata.droppedBytes == 0
    {
      var truncated := total > limit;
      var rest := tail;
      if truncated {
        head := TrimIncompleteUtf8Tail(head);
        var continuation := 0;
        while continuation < 3 && continuation < |rest| && IsContinuation(rest[continuation])
          invariant continuation <= 3 && continuation <= |rest|
          invariant LeadingContinuations(rest, 0) == LeadingContinuations(rest, continuation)
        {
          continuation := continuation + 1;
        }
        rest := rest[continuation..];
      }
      var retained := |head| + |rest|;
      var dropped := if truncated && retained < total then total - retained else 0;
      var text, fitTruncated := FitToLimit(Lossy(head + rest), limit);
      output := CapturedOutput(
        text, OutputMetadata(limit, total, dropped, truncated || fitTruncated));
    }
  }
}
