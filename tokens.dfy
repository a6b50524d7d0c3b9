/** The parser's token: a typed, positioned span of the source buffer, and
    the extraction of its text with surrounding whitespace trimmed. */
module Tokens {
  import opened Common

  /** The kinds of token the tokenizer produces. */
  datatype TokenTypes =
    | Start | EOF | InvalidCharacters | StringStart | StringEscape | StringEnd
    | ImportStart | Identifier | AttributesStart | Attribute | ModifiersStart
    | Modifier | GenericsStart | Generic | GenericBound | GenericEnd
    | ArgumentsStart | ArgumentName | ArgumentType | ArgumentEnd | ArgumentsEnd
    | ReturnType | CodeStart | StructStart | TraitStart | ImplStart
    | FunctionStart | StructTopElement | StructEnd | FieldName | FieldType
    | FieldValue | FieldEnd | LineEnd | Operator | CodeEnd | Variable | Integer
    | Float | CallingType | Return | Break | Switch | For | While | Else | If
    | ParenOpen | ParenClose | BlockStart | BlockEnd | New | Colon | In
    | ImportEnd | ReturnTypeArrow | ArgumentTypeSeparator | ArgumentSeparator
    | Let | Equals | AttributeEnd | FieldSeparator | Period | Comment | True
    | False | AttributeStart | GenericBoundEnd | GenericsEnd | Do | Char

  /** Data about the code block around a token. */
  datatype TokenCodeData = TokenCodeData(startLine: u32, endLine: u32)

  /** A token covers the bytes [startOffset, endOffset) of the file buffer. */
  datatype Token = Token(
    tokenType: TokenTypes,
    start: Position,
    startOffset: nat,
    end: Position,
    endOffset: nat,
    codeData: Option<TokenCodeData>)

  /** `Token::new`, whose parameter order differs from the field order. */
  function New(tokenType: TokenTypes, codeData: Option<TokenCodeData>, start: Position,
               startOffset: nat, end: Position, endOffset: nat): (t: Token)
    ensures t.tokenType == tokenType && t.codeData == codeData
    ensures t.start == start && t.startOffset == startOffset
    ensures t.end == end && t.endOffset == endOffset
  {
    Token(tokenType, start, startOffset, end, endOffset, codeData)
  }

  /** An error attributed to exactly the span of this token. */
  function MakeError(t: Token, file: string, error: string): (e: ParsingError)
    ensures e.file == file && e.message == error
    ensures e.start == t.start && e.startOffset == t.startOffset
    ensures e.end == t.end && e.endOffset == t.endOffset
  {
    ParsingError(file, t.start, t.startOffset, t.end, t.endOffset, error)
  }

  /** An error made from a freshly built token carries the positions it was built with. */
  lemma ErrorOfNewToken(tokenType: TokenTypes, codeData: Option<TokenCodeData>, start: Position,
                        startOffset: nat, end: Position, endOffset: nat, file: string, error: string)
    ensures MakeError(New(tokenType, codeData, start, startOffset, end, endOffset), file, error)
         == ParsingError(file, start, startOffset, end, endOffset, error)
  {
  }

  // ---------------------------------------------------------------------
  // The `?` operator on tokens (`Try` and `FromResidual`).

  datatype ControlFlow<+B, +C> = Continue(output: C) | Break(residual: B)

  /** `Try::branch`: a token never short-circuits. */
  function Branch(t: Token): (r: ControlFlow<Token, Token>)
    ensures r.Continue? && r.output == t
  {
    Continue(t)
  }

  /** `Try::from_output`. */
  function FromOutput(output: Token): (t: Token)
    ensures t == output
  {
    output
  }

  /** `FromResidual<Token>::from_residual`. `Result<Infallible, Token>` has only
      `Err(token)` values, so its `from_residual` is this same identity on the token. */
  function FromResidual(residual: Token): (t: Token)
    ensures t == residual
  {
    residual
  }

  /** What `t?` evaluates to: the branch is always `Continue`, so the token itself,
      and `from_output` after `branch` gives back the token unchanged. */
  lemma TryIsIdentity(t: Token)
    ensures Branch(t) == Continue(t)
    ensures Branch(FromOutput(t)) == Continue(t)
    ensures match Branch(t) case Continue(v) => v == t case Break(r) => FromResidual(r) == t
  {
  }

  // ---------------------------------------------------------------------
  // Text extraction, as written.

  const SPACE: byte := 0x20
  const TAB: byte := 0x09
  const CR: byte := 0x0D
  const LF: byte := 0x0A

  /** The four whitespace bytes `to_string` means to trim. */
  predicate IsBlank(b: byte) {
    b == SPACE || b == TAB || b == CR || b == LF
  }

  /** The blanks that the loop guards test without the `start < end` condition. */
  predicate IsHorizontalBlank(b: byte) {
    b == SPACE || b == TAB || b == CR
  }

  /** The loop guard of `to_string` as Rust parses it: `&&` binds tighter than
      `||`, so `start < end` guards only the line-feed test. */
  function SkipsAsWritten(b: byte, start: nat, end: nat): (r: bool)
    ensures r ==> IsBlank(b)
    ensures start < end ==> (r <==> IsBlank(b))
    ensures start >= end ==> (r <==> b != LF && IsBlank(b))
  {
    IsHorizontalBlank(b) || (b == LF && start < end)
  }

  /** How a run of `to_string` panics. */
  datatype Panic =
    | IndexOutOfBounds(index: nat, length: nat)   // `buffer[i]` with i >= len
    | SubtractOverflow                            // `usize` 0 - 1
    | SliceIndexOrder(from: nat, to: nat)         // `buffer[from..to]` with from > to

  /** Where the first loop leaves `start`: the first index from `start` on whose
      byte fails the guard, or the panic of reading past the buffer. */
  function ForwardStop(buffer: seq<byte>, start: nat, end: nat): (r: Result<nat, Panic>)
    decreases |buffer| - start
    ensures r.Ok? ==> start <= r.value < |buffer| && !SkipsAsWritten(buffer[r.value], r.value, end)
    ensures r.Ok? ==> forall i :: start <= i < r.value ==> SkipsAsWritten(buffer[i], i, end)
    ensures r.Err? ==> r.error == IndexOutOfBounds(if start < |buffer| then |buffer| else start, |buffer|)
    ensures r.Err? ==> forall i :: start <= i < |buffer| ==> SkipsAsWritten(buffer[i], i, end)
  {
    if start >= |buffer| then Err(IndexOutOfBounds(start, |buffer|))
    else if SkipsAsWritten(buffer[start], start, end) then ForwardStop(buffer, start + 1, end)
    else Ok(start)
  }

  /** Where the second loop leaves `end`: the last index up to `end` whose byte
      fails the guard, or the panic of indexing past the buffer or decrementing 0. */
  function BackwardStop(buffer: seq<byte>, start: nat, end: nat): (r: Result<nat, Panic>)
    decreases end
    ensures r.Ok? ==> r.value <= end < |buffer| && !SkipsAsWritten(buffer[r.value], start, r.value)
    ensures r.Ok? ==> forall i :: r.value < i <= end ==> SkipsAsWritten(buffer[i], start, i)
    ensures r == Err(IndexOutOfBounds(end, |buffer|)) <==> end >= |buffer|
    ensures r == Err(SubtractOverflow) ==> forall i :: 0 <= i <= end ==> SkipsAsWritten(buffer[i], start, i)
    ensures r.Err? ==> r.error == IndexOutOfBounds(end, |buffer|) || r.error == SubtractOverflow
  {
    if end >= |buffer| then Err(IndexOutOfBounds(end, |buffer|))
    else if SkipsAsWritten(buffer[end], start, end) then
      if end == 0 then Err(SubtractOverflow) else BackwardStop(buffer, start, end - 1)
    else Ok(end)
  }

  /** The outcome of `Token::to_string` on `buffer`, byte for byte: the text is
      always a contiguous part of the token's own span. */
  function TokenText(t: Token, buffer: seq<byte>): (r: Result<seq<byte>, Panic>)
    ensures r.Ok? ==> exists lo, hi :: t.startOffset <= lo <= hi <= t.endOffset <= |buffer| && r.value == buffer[lo..hi]
  {
    if t.endOffset == 0 then Err(SubtractOverflow)
    else
      var last := t.endOffset - 1;
      match ForwardStop(buffer, t.startOffset, last)
      case Err(p) => Err(p)
      case Ok(start) =>
        match BackwardStop(buffer, start, last)
        case Err(p) => Err(p)
        case Ok(end) =>
          if start <= end + 1 then
            var text := buffer[start..end + 1];
            assert t.startOffset <= start <= end + 1 <= t.endOffset <= |buffer| && text == buffer[start..end + 1];
            Ok(text)
          else Err(SliceIndexOrder(start, end + 1))
  }

  /** `Token::to_string` with its two index-moving loops, minus the lossy UTF-8
      decoding: the text is returned as bytes. */
  method ToString(t: Token, buffer: seq<byte>) returns (r: Result<seq<byte>, Panic>)
    ensures r == TokenText(t, buffer)
  {
    if t.endOffset == 0 {
      return Err(SubtractOverflow);
    }
    var start := t.startOffset;
    var end := t.endOffset - 1;
    while start < |buffer| && SkipsAsWritten(buffer[start], start, end)
      invariant t.startOffset <= start
      invariant ForwardStop(buffer, start, end) == ForwardStop(buffer, t.startOffset, end)
      decreases |buffer| - start
    {
      start := start + 1;
    }
    if start >= |buffer| {
      return Err(IndexOutOfBounds(start, |buffer|));
    }
    while end < |buffer| && SkipsAsWritten(buffer[end], start, end)
      invariant 0 <= end <= t.endOffset - 1
      invariant BackwardStop(buffer, start, end) == BackwardStop(buffer, start, t.endOffset - 1)
      decreases end
    {
      if end == 0 {
        return Err(SubtractOverflow);
      }
      end := end - 1;
    }
    if end >= |buffer| {
      return Err(IndexOutOfBounds(end, |buffer|));
    }
    if start > end + 1 {
      return Err(SliceIndexOrder(start, end + 1));
    }
    r := Ok(buffer[start..end + 1]);
  }

  /** The indexing in `to_string` succeeds only if the span ends inside the
      buffer, is not empty-ended (`end_offset >= 1`), and does not start after it ends. */
  lemma TextNeedsSpanInBuffer(t: Token, buffer: seq<byte>)
    requires TokenText(t, buffer).Ok?
    ensures 1 <= t.endOffset <= |buffer|
    ensures t.startOffset <= t.endOffset && t.startOffset < |buffer|
  {
  }

  /** When the span holds a non-blank byte, `to_string` returns exactly the bytes
      from the first to the last non-blank byte of the span. */
  lemma TextOfSpanWithContent(t: Token, buffer: seq<byte>, first: nat, last: nat)
    requires t.startOffset <= first <= last < t.endOffset <= |buffer|
    requires !IsBlank(buffer[first]) && !IsBlank(buffer[last])
    requires forall i :: t.startOffset <= i < first ==> IsBlank(buffer[i])
    requires forall i :: last < i < t.endOffset ==> IsBlank(buffer[i])
    ensures TokenText(t, buffer) == Ok(buffer[first..last + 1])
    ensures var text := buffer[first..last + 1]; !IsBlank(text[0]) && !IsBlank(text[|text| - 1])
  {
    var end := t.endOffset - 1;
    forall i | t.startOffset <= i < first
      ensures SkipsAsWritten(buffer[i], i, end)
    {
      assert IsBlank(buffer[i]) && i < end;
    }
    assert !SkipsAsWritten(buffer[first], first, end);
    assert ForwardStop(buffer, t.startOffset, end) == Ok(first);
    forall i | last < i <= end
      ensures SkipsAsWritten(buffer[i], first, i)
    {
      assert IsBlank(buffer[i]) && first < i;
    }
    assert !SkipsAsWritten(buffer[last], first, last);
    assert BackwardStop(buffer, first, end) == Ok(last);
  }

  /** Precedence defect: a span holding only spaces, tabs and carriage returns is
      not protected by `start < end`, so `start` runs past `end` and the call
      always panics instead of yielding an empty string. */
  lemma BlankSpanPanics(t: Token, buffer: seq<byte>)
    requires t.startOffset < t.endOffset
    requires forall i :: t.startOffset <= i < t.endOffset && i < |buffer| ==> IsHorizontalBlank(buffer[i])
    ensures TokenText(t, buffer).Err?
  {
    var end := t.endOffset - 1;
    var fwd := ForwardStop(buffer, t.startOffset, end);
    if fwd.Ok? {
      var start := fwd.value;
      assert start >= t.endOffset;
      var bwd := BackwardStop(buffer, start, end);
      assert bwd.Ok? ==> bwd.value < t.startOffset;
    }
  }

  /** The smallest instance: the one-space token between two letters of "a b". */
  lemma SpaceBetweenLettersPanics()
    ensures TokenText(Token(Identifier, (0, 1), 1, (0, 2), 2, None), [0x61, SPACE, 0x62])
         == Err(SliceIndexOrder(2, 1))
  {
    var buffer: seq<byte> := [0x61, SPACE, 0x62];
    assert ForwardStop(buffer, 2, 1) == Ok(2);
    assert ForwardStop(buffer, 1, 1) == Ok(2);
    assert BackwardStop(buffer, 2, 0) == Ok(0);
    assert BackwardStop(buffer, 2, 1) == Ok(0);
  }

  /** A span of line feeds only is not trimmed to nothing: the guard stops the
      first loop at the span's last byte, and one line feed is returned. */
  lemma NewlineSpanKeepsOneNewline(t: Token, buffer: seq<byte>)
    requires t.startOffset < t.endOffset <= |buffer|
    requires forall i :: t.startOffset <= i < t.endOffset ==> buffer[i] == LF
    ensures TokenText(t, buffer) == Ok([LF])
  {
    var last := t.endOffset - 1;
    assert !SkipsAsWritten(buffer[last], last, last);
    assert ForwardStop(buffer, t.startOffset, last) == Ok(last);
    assert BackwardStop(buffer, last, last) == Ok(last);
    assert buffer[last..last + 1] == [LF];
  }

  // ---------------------------------------------------------------------
  // Text extraction, as intended: a saturating scan that never leaves the span.

  /** The index of the first non-blank byte of `buffer[lo..hi]`, or `hi`. */
  function ContentStart(buffer: seq<byte>, lo: nat, hi: nat): (k: nat)
    requires lo <= hi <= |buffer|
    decreases hi - lo
    ensures lo <= k <= hi
    ensures forall i :: lo <= i < k ==> IsBlank(buffer[i])
    ensures k < hi ==> !IsBlank(buffer[k])
  {
    if lo < hi && IsBlank(buffer[lo]) then ContentStart(buffer, lo + 1, hi) else lo
  }

  /** One past the last non-blank byte of `buffer[lo..hi]`, or `lo`. */
  function ContentEnd(buffer: seq<byte>, lo: nat, hi: nat): (k: nat)
    requires lo <= hi <= |buffer|
    decreases hi - lo
    ensures lo <= k <= hi
    ensures forall i :: k <= i < hi ==> IsBlank(buffer[i])
    ensures lo < k ==> !IsBlank(buffer[k - 1])
  {
    if lo < hi && IsBlank(buffer[hi - 1]) then ContentEnd(buffer, lo, hi - 1) else hi
  }

  /** The bytes of `buffer[lo..hi]` without its leading and trailing blanks. */
  function TrimmedSpan(buffer: seq<byte>, lo: nat, hi: nat): seq<byte>
    requires lo <= hi <= |buffer|
  {
    var first := ContentStart(buffer, lo, hi);
    buffer[first..ContentEnd(buffer, first, hi)]
  }

  /** The trimmed text is the part of the span that starts and ends with a
      non-blank byte, everything cut off is blank, and it is empty exactly
      when the span is all blank. */
  lemma TrimmedSpanIsBlankFree(buffer: seq<byte>, lo: nat, hi: nat)
    requires lo <= hi <= |buffer|
    ensures var text := TrimmedSpan(buffer, lo, hi);
      && (text == [] <==> forall i :: lo <= i < hi ==> IsBlank(buffer[i]))
      && (text != [] ==> !IsBlank(text[0]) && !IsBlank(text[|text| - 1]))
      && exists a, b :: lo <= a <= b <= hi && text == buffer[a..b]
           && (forall i :: lo <= i < a ==> IsBlank(buffer[i]))
           && (forall i :: b <= i < hi ==> IsBlank(buffer[i]))
  {
    var first := ContentStart(buffer, lo, hi);
    var last := ContentEnd(buffer, first, hi);
    var text := buffer[first..last];
    if first < hi {
      assert first < last;
      assert text[0] == buffer[first];
    }
    if text != [] {
      assert text[|text| - 1] == buffer[last - 1];
    }
  }

  /** Token text as intended: the span without its leading and trailing blanks,
      and empty for an all-blank span, by two scans that stop where they meet. */
  method ToStringSaturating(t: Token, buffer: seq<byte>) returns (text: seq<byte>)
    requires t.startOffset <= t.endOffset <= |buffer|
    ensures text == TrimmedSpan(buffer, t.startOffset, t.endOffset)
  {
    var start, end := t.startOffset, t.endOffset;
    while start < end && IsBlank(buffer[start])
      invariant t.startOffset <= start <= end
      invariant ContentStart(buffer, start, end) == ContentStart(buffer, t.startOffset, end)
    {
      start := start + 1;
    }
    while start < end && IsBlank(buffer[end - 1])
      invariant start <= end <= t.endOffset
      invariant ContentEnd(buffer, start, end) == ContentEnd(buffer, start, t.endOffset)
    {
      end := end - 1;
    }
    text := buffer[start..end];
  }

  /** Where the span holds a non-blank byte, the code as written and the
      intended saturating scan extract the same text. */
  lemma AsWrittenAgreesWhenSpanHasContent(t: Token, buffer: seq<byte>, j: nat)
    requires t.startOffset <= j < t.endOffset <= |buffer|
    requires !IsBlank(buffer[j])
    ensures TokenText(t, buffer) == Ok(TrimmedSpan(buffer, t.startOffset, t.endOffset))
  {
    var first := ContentStart(buffer, t.startOffset, t.endOffset);
    var last := ContentEnd(buffer, first, t.endOffset);
    assert first <= j < last;
    TextOfSpanWithContent(t, buffer, first, last - 1);
  }
}
