/** The growable buffer in which a multipart request body is built. */
module HttpRequest {
  import opened Codes
  import opened Multipart

  const NUL: bytes := [0]
  const NUL_SIZE: nat := 1
  const BOUNDARY_SIGN_LENGTH: nat := 2
  const NEW_LINE_LENGTH: nat := 2
  const CONTENT_TYPE_LINE_LENGTH: nat := 65
  const CONTENT_TYPE_HEADER_LENGTH: nat := 14
  const CONTENT_ID_HEADER_LENGTH: nat := 12
  const BOUNDARY_LINE_LENGTH: nat := BOUNDARY_SIGN_LENGTH + BOUNDARY_LENGTH + NEW_LINE_LENGTH

  const OVERHEAD_FOR_TUPLE: nat :=
    5 * BOUNDARY_LINE_LENGTH + CONTENT_TYPE_LINE_LENGTH + 2 * CONTENT_TYPE_HEADER_LENGTH + 4 * NEW_LINE_LENGTH
    + NUL_SIZE
  const OVERHEAD_FOR_SINGLE: nat :=
    2 * BOUNDARY_LINE_LENGTH + CONTENT_TYPE_LINE_LENGTH + CONTENT_TYPE_HEADER_LENGTH + CONTENT_ID_HEADER_LENGTH
    + 2 * NEW_LINE_LENGTH + NUL_SIZE
  const OVERHEAD_FOR_BOUNDARY: nat := BOUNDARY_LINE_LENGTH + NUL_SIZE
  const FINALIZE_SIZE: nat := 2 * BOUNDARY_SIGN_LENGTH + BOUNDARY_LENGTH

  const BOUNDARY_CHARACTERS: bytes :=
    Ascii("1234567890") + Ascii("abcdefghijklmnopqrstuvwxyz") + Ascii("ABCDEFGHIJKLMNOPQRSTUVWXYZ")

  // ---------- sizes ----------

  function TupleReservation(metaType: nat, payloadType: nat, payload: nat, meta: nat): nat {
    OVERHEAD_FOR_TUPLE + metaType + payloadType + payload + meta
  }

  function TupleParts(sub: bytes, meta: bytes, metaType: bytes, source: bytes, payloadType: bytes): bytes {
    TypeLine(RELATED + sub) + CRLF + SubPart(sub, metaType, meta) + SubPart(sub, payloadType, source) + CloseLine(sub)
  }

  function SubSectionReservation(contentType: nat, given: Option<bytes>): nat {
    BOUNDARY_LINE_LENGTH + CONTENT_TYPE_HEADER_LENGTH + 2 * NEW_LINE_LENGTH + NUL_SIZE + contentType
    + (if given == None then CONTENT_TYPE_LINE_LENGTH else 0)
  }

  function Head(sub: bytes, kind: bytes): bytes {
    OpenLine(sub) + TypeLine(kind) + CRLF
  }

  function SubSectionStart(sub: bytes, contentType: bytes, given: Option<bytes>): bytes {
    (if given == None then TypeLine(RELATED + sub) else []) + Head(sub, contentType)
  }

  function SingleReservation(contentType: nat, contentId: nat, meta: nat): nat {
    OVERHEAD_FOR_SINGLE + contentType + contentId + meta + NEW_LINE_LENGTH + NUL_SIZE
  }

  lemma EncodedLength(b: bytes, x: Section)
    requires IsBoundary(b) && (x.Tuple? ==> IsBoundary(x.sub))
    ensures x.Tuple? ==>
              |Encode(b, x)| + 19 == TupleReservation(|x.metaType|, |x.payloadType|, |x.payload|, |x.meta|)
    ensures x.Single? ==>
              |Encode(b, x)| + 91 == SingleReservation(|x.contentType|, |x.contentId|, |x.meta|)
  {
  }

  /** The size the buffer is grown to, in the floating-point form the library computes it, read as reals. */
  function GrowthSize(required: nat, size: nat): int {
    if size == 0 then (required as real * 1.5 + 1.0).Floor
    else ((required as real / size as real + 1.0) * 1.5 * size as real).Floor
  }

  /** The buffer size after asking for `required` free bytes; None stands for the no-more-space code. */
  function Grown(size: nat, offset: nat, max: nat, resize: bool, required: nat): Option<int>
    requires offset <= size
  {
    if required <= size - offset then Some(size)
    else if resize && GrowthSize(required, size) <= max then Some(GrowthSize(required, size))
    else if resize && required <= max - offset then Some(max)
    else None
  }

  lemma GrowthSizeInIntegers(required: nat, size: nat)
    ensures GrowthSize(required, size) == if size == 0 then (3 * required + 2) / 2 else 3 * (required + size) / 2
  {
    var r, s := required as real, size as real;
    if size != 0 {
      assert r / s * s == r;
      assert (r / s + 1.0) * 1.5 * s == (r + s) * 1.5;
      assert (r + s) * 1.5 == (3 * (required + size)) as real / 2.0;
    } else {
      assert r * 1.5 + 1.0 == (3 * required + 2) as real / 2.0;
    }
  }

  /** Growing refuses exactly the requests that exceed the maximum, and otherwise makes enough room. */
  lemma GrowthIsExact(size: nat, offset: nat, max: nat, required: nat)
    requires offset <= size <= max
    ensures required <= size - offset ==> Grown(size, offset, max, true, required) == Some(size)
    ensures required > size - offset ==>
              var bigger := if size == 0 then (3 * required + 2) / 2 else 3 * (required + size) / 2;
              && (bigger <= max ==> Grown(size, offset, max, true, required) == Some(bigger))
              && (bigger > max && required <= max - offset ==> Grown(size, offset, max, true, required) == Some(max))
    ensures Grown(size, offset, max, false, required) == if required <= size - offset then Some(size) else None
    ensures Grown(size, offset, max, true, required).None? <==> required > max - offset
    ensures Grown(size, offset, max, true, required).Some? ==>
              size <= Grown(size, offset, max, true, required).value <= max
              && offset + required <= Grown(size, offset, max, true, required).value
  {
    GrowthSizeInIntegers(required, size);
  }

  /** What opening a sub-section writes: 1 byte less than it reserves, for the terminator. */
  lemma SubSectionLayout(sub: bytes, contentType: bytes, given: Option<bytes>)
    requires IsBoundary(sub)
    ensures
      var newLine := Ascii("\r\n");
      var related := if given == None then
                       Ascii("Content-Type: ") + Ascii("multipart/related;boundary=") + sub + newLine
                     else [];
      && SubSectionStart(sub, contentType, given)
         == related + (Ascii("--") + sub + newLine + Ascii("Content-Type: ") + contentType + newLine + newLine)
      && |SubSectionStart(sub, contentType, given)| + 1 == SubSectionReservation(|contentType|, given)
  {
    TextsAreLiteral();
    hide Ascii;
  }

  /** What ending a tuple's last sub-section reserves: room for an opening line, although it writes a closing one. */
  const CLOSE_RESERVATION: nat := BOUNDARY_LINE_LENGTH + NUL_SIZE
  const CLOSE_NEED: nat := BOUNDARY_LINE_LENGTH + BOUNDARY_SIGN_LENGTH + NUL_SIZE

  /** The write that follows a granted reservation stays inside the buffer. */
  predicate CloseFits(size: nat, offset: nat, max: nat, resize: bool)
    requires offset <= size
  {
    var grown := Grown(size, offset, max, resize, CLOSE_RESERVATION);
    grown.Some? ==> CLOSE_NEED <= grown.value - offset
  }

  /** The reservation falls short exactly if 27 or 28 bytes are free, or if the maximum leaves no more to grow to. */
  lemma CloseFitsExactly(size: nat, offset: nat, max: nat, resize: bool)
    requires offset <= size && (resize ==> size <= max)
    ensures CloseFits(size, offset, max, resize)
            <==> !(27 <= size - offset <= 28 || (resize && size - offset < 27 <= max - offset <= 28))
  {
    GrowthSizeInIntegers(CLOSE_RESERVATION, size);
  }

  /** A tuple can leave as little as its 19 spare bytes, and then the closing boundary, which takes 26, does not fit. */
  lemma FinalizeAfterTuple(b: bytes, x: Section, offset: nat, max: nat)
    requires IsBoundary(b) && x.Tuple? && IsBoundary(x.sub)
    requires offset + TupleReservation(|x.metaType|, |x.payloadType|, |x.payload|, |x.meta|) <= max
    ensures
      var next := offset + |Encode(b, x)|;
      && next <= max - 19
      && (FINALIZE_SIZE > max - next <==> max - 26 < next <= max - 19)
  {
    EncodedLength(b, x);
  }

  // ---------- randomness ----------

  /** The random number source; a draw may fail. */
  class Random {
    constructor () {}

    method Number() returns (code: Code, n: nat)
      ensures code == Ok || IsLocalFailure(code)
    {
      code := *;
      n := *;
      if code != Ok && !IsLocalFailure(code) {
        code := Fail;
      }
    }
  }

  lemma BoundaryTable(n: nat)
    requires n < |BOUNDARY_CHARACTERS|
    ensures IsBoundaryCharacter(BOUNDARY_CHARACTERS[n])
  {
    AsciiAlphanumeric("1234567890");
    AsciiAlphanumeric("abcdefghijklmnopqrstuvwxyz");
    AsciiAlphanumeric("ABCDEFGHIJKLMNOPQRSTUVWXYZ");
  }

  lemma DigitEntry(n: nat)
    requires n < 10
    ensures "1234567890"[n] as int == if n < 9 then n + 49 else 48
  {
  }

  lemma LowerEntry(n: nat)
    requires n < 26
    ensures "abcdefghijklmnopqrstuvwxyz"[n] as int == n + 97
  {
  }

  lemma UpperEntry(n: nat)
    requires n < 26
    ensures "ABCDEFGHIJKLMNOPQRSTUVWXYZ"[n] as int == n + 65
  {
  }

  lemma TableEntry(c: nat)
    requires 48 <= c <= 57 || 65 <= c <= 90 || 97 <= c <= 122
    ensures c as byte in BOUNDARY_CHARACTERS
  {
    if c <= 57 {
      DigitEntry(if c == 48 then 9 else c - 49);
      assert BOUNDARY_CHARACTERS[if c == 48 then 9 else c - 49] == c as byte;
    } else if c <= 90 {
      UpperEntry(c - 65);
      assert BOUNDARY_CHARACTERS[36 + c - 65] == c as byte;
    } else {
      LowerEntry(c - 97);
      assert BOUNDARY_CHARACTERS[10 + c - 97] == c as byte;
    }
  }

  /** The table has every boundary character, and nothing else. */
  lemma BoundaryTableIsLiteral(c: byte)
    ensures |BOUNDARY_CHARACTERS| == 62
    ensures c in BOUNDARY_CHARACTERS
            <==> '0' as int <= c as int <= '9' as int || 'A' as int <= c as int <= 'Z' as int
                 || 'a' as int <= c as int <= 'z' as int
    ensures c in BOUNDARY_CHARACTERS <==> IsBoundaryCharacter(c)
  {
    if c in BOUNDARY_CHARACTERS {
      var n :| 0 <= n < 62 && BOUNDARY_CHARACTERS[n] == c;
      BoundaryTable(n);
    }
    if IsBoundaryCharacter(c) {
      TableEntry(c as int);
    }
  }

  lemma BoundaryIsLiteral(b: bytes)
    ensures IsBoundary(b)
            <==> |b| == 22
                 && forall i :: 0 <= i < |b| ==>
                      '0' as int <= b[i] as int <= '9' as int || 'A' as int <= b[i] as int <= 'Z' as int
                      || 'a' as int <= b[i] as int <= 'z' as int
  {
  }

  lemma AsciiAlphanumeric(s: string)
    requires forall i :: 0 <= i < |s| ==> '0' <= s[i] <= '9' || 'A' <= s[i] <= 'Z' || 'a' <= s[i] <= 'z'
    ensures forall i :: 0 <= i < |s| ==> IsBoundaryCharacter(Ascii(s)[i])
  {
  }

  method GenerateBoundary(random: Random) returns (code: Code, boundary: bytes)
    ensures code == Ok || IsLocalFailure(code)
    ensures code == Ok ==> IsBoundary(boundary)
  {
    code, boundary := Ok, [];
    var index := 0;
    while index < BOUNDARY_LENGTH
      invariant 0 <= index <= BOUNDARY_LENGTH && |boundary| == index
      invariant code == Ok
      invariant forall i :: 0 <= i < index ==> IsBoundaryCharacter(boundary[i])
    {
      var n: nat;
      code, n := random.Number();
      if code != Ok {
        return code, [];
      }
      BoundaryTable(n % |BOUNDARY_CHARACTERS|);
      boundary := boundary + [BOUNDARY_CHARACTERS[n % |BOUNDARY_CHARACTERS|]];
      index := index + 1;
    }
  }

  // ---------- writing into the buffer ----------

  /** Copies `text` to position `at`; `limit` is the end of the space reserved for the write. */
  method Copy(buffer: array<byte>, at: nat, text: bytes, ghost limit: nat)
    requires at + |text| <= limit <= buffer.Length
    modifies buffer
    ensures buffer[..at + |text|] == old(buffer[..at]) + text
    ensures buffer[limit..] == old(buffer[limit..])
  {
    forall i | 0 <= i < |text| {
      buffer[at + i] := text[i];
    }
  }

  /** Formatted printing of a C string into `room` bytes: it needs space for the terminating NUL. */
  method Print(buffer: array<byte>, at: nat, room: nat, text: bytes, ghost limit: nat) returns (code: Code)
    requires at + room <= limit <= buffer.Length
    modifies buffer
    ensures code == if |text| < room then Ok else Fail
    ensures code == Ok ==> buffer[..at + |text|] == old(buffer[..at]) + text
    ensures buffer[..at] == old(buffer[..at]) && buffer[limit..] == old(buffer[limit..])
  {
    if |text| >= room {
      return Fail;
    }
    Copy(buffer, at, text + NUL, limit);
    assert buffer[..at + |text|] == buffer[..at + |text| + 1][..at + |text|];
    assert buffer[..at] == buffer[..at + |text| + 1][..at];
    return Ok;
  }

  datatype BoundaryKind = Open | Close

  /** A request body under construction. */
  class Request {
    var payload: array<byte>
    var payloadSize: nat
    var payloadOffset: nat
    const boundary: bytes
    const maxPayloadSize: nat
    const resizeEnabled: bool

    ghost predicate Valid()
      reads this
    {
      && payload.Length == payloadSize
      && payloadOffset <= payloadSize
      && (resizeEnabled ==> payloadSize <= maxPayloadSize)
      && IsBoundary(boundary)
    }

    /** The bytes written so far. */
    ghost function Text(): bytes
      requires Valid()
      reads this, payload
    {
      payload[..payloadOffset]
    }

    constructor (payloadSize: nat, resizeEnabled: bool, maxPayloadSize: nat, boundary: bytes)
      requires IsBoundary(boundary) && (resizeEnabled ==> payloadSize <= maxPayloadSize)
      ensures Valid() && fresh(payload) && Text() == []
      ensures this.payloadSize == payloadSize && this.resizeEnabled == resizeEnabled
      ensures this.maxPayloadSize == maxPayloadSize && this.boundary == boundary
    {
      this.payload := new byte[payloadSize];
      this.payloadSize := payloadSize;
      this.payloadOffset := 0;
      this.boundary := boundary;
      this.maxPayloadSize := maxPayloadSize;
      this.resizeEnabled := resizeEnabled;
    }

    /** Reallocates the buffer, keeping what fits of it. */
    method Resize(size: nat)
      requires Valid() && payloadOffset <= size && (resizeEnabled ==> size <= maxPayloadSize)
      modifies this`payload, this`payloadSize
      ensures Valid() && fresh(payload) && payloadSize == size && Text() == old(Text())
    {
      var was := payload;
      var bigger := new byte[size];
      forall i | 0 <= i < (if size < was.Length then size else was.Length) {
        bigger[i] := was[i];
      }
      payload := bigger;
      payloadSize := size;
    }

    /** Makes sure that `required` more bytes can be written, growing the buffer if allowed. */
    method Reserve(required: nat) returns (code: Code)
      requires Valid()
      modifies this`payload, this`payloadSize
      ensures Valid() && Text() == old(Text()) && (payload == old(payload) || fresh(payload))
      ensures var grown := Grown(old(payloadSize), payloadOffset, maxPayloadSize, resizeEnabled, required);
              && (code == if grown.Some? then Ok else HttpRequestNoMoreSpace)
              && payloadSize == (if grown.Some? then grown.value else old(payloadSize))
      ensures code == Ok ==> payloadOffset + required <= payloadSize
    {
      var maxAllowed := (if resizeEnabled then maxPayloadSize else payloadSize) - payloadOffset;
      var available := payloadSize - payloadOffset;
      if required > available {
        GrowthSizeInIntegers(required, payloadSize);
        var newSize := GrowthSize(required, payloadSize);
        if newSize <= maxPayloadSize && resizeEnabled {
          Resize(newSize);
        } else if required <= maxAllowed && resizeEnabled {
          Resize(maxPayloadSize);
        } else {
          return HttpRequestNoMoreSpace;
        }
      }
      return Ok;
    }

    method AddBoundary(at: nat, b: bytes, kind: BoundaryKind, ghost limit: nat) returns (code: Code, next: nat)
      requires IsBoundary(b) && limit <= payload.Length
      requires at + BOUNDARY_LINE_LENGTH + (if kind == Open then 0 else BOUNDARY_SIGN_LENGTH) + NUL_SIZE <= limit
      modifies payload
      ensures code == Ok && next == at + BOUNDARY_LINE_LENGTH + (if kind == Open then 0 else BOUNDARY_SIGN_LENGTH)
      ensures payload[..next] == old(payload[..at]) + (if kind == Open then OpenLine(b) else CloseLine(b))
      ensures payload[limit..] == old(payload[limit..])
    {
      var text, length;
      if kind == Open {
        text, length := OpenLine(b), BOUNDARY_LINE_LENGTH;
      } else {
        text, length := CloseLine(b), BOUNDARY_LINE_LENGTH + BOUNDARY_SIGN_LENGTH;
      }
      code := Print(payload, at, length + NUL_SIZE, text, limit);
      if code != Ok {
        return code, at;
      }
      next := at + length;
    }

    method AddContentInfo(at: nat, text: bytes, length: nat, ghost limit: nat) returns (code: Code, next: nat)
      requires at + length + NUL_SIZE <= limit <= payload.Length
      requires |text| == length
      modifies payload
      ensures code == Ok && next == at + length
      ensures payload[..next] == old(payload[..at]) + text
      ensures payload[limit..] == old(payload[limit..])
    {
      code := Print(payload, at, length + NUL_SIZE, text, limit);
      if code != Ok {
        return code, at;
      }
      next := at + length;
    }

    method AddBlankLine(at: nat, ghost limit: nat) returns (next: nat)
      requires at + NEW_LINE_LENGTH + NUL_SIZE <= limit <= payload.Length
      modifies payload
      ensures next == at + NEW_LINE_LENGTH
      ensures payload[..next] == old(payload[..at]) + CRLF
      ensures payload[limit..] == old(payload[limit..])
    {
      Copy(payload, at, CRLF, limit);
      next := at + NEW_LINE_LENGTH;
      payload[next] := 0;
      assert payload[..next] == old(payload[..at]) + CRLF;
    }

    /**
     Adds a tuple. `source` is what the copy callback delivers, at most the announced `size` bytes.
     The new sub-boundary is returned for the specification only.
     */
    method AddTuple(random: Random, meta: bytes, metaType: bytes, source: bytes, size: nat, payloadType: bytes)
      returns (code: Code, ghost sub: bytes)
      requires Valid() && |source| <= size
      modifies this`payload, this`payloadSize, this`payloadOffset, payload
      ensures Valid() && (payload == old(payload) || fresh(payload))
      ensures code == Ok || code == HttpRequestNoMoreSpace || IsLocalFailure(code)
      ensures code == HttpRequestNoMoreSpace
              <==> Grown(old(payloadSize), old(payloadOffset), maxPayloadSize, resizeEnabled,
                         TupleReservation(|metaType|, |payloadType|, size, |meta|)).None?
      ensures code == Ok ==>
                && IsBoundary(sub)
                && Text() == old(Text()) + Encode(boundary, Tuple(sub, metaType, meta, payloadType, source))
      ensures code != Ok ==> Text() == old(Text())
    {
      sub := [];
      code := Reserve(TupleReservation(|metaType|, |payloadType|, size, |meta|));
      if code != Ok {
        return;
      }
      hide IsBoundary, Encode;
      ghost var limit := payloadOffset + TupleReservation(|metaType|, |payloadType|, size, |meta|);
      var at;
      code, sub, at := AddTupleText(random, payloadOffset, meta, metaType, source, payloadType, limit);
      if code == Ok {
        payloadOffset := at;
      }
    }

    /** The text of a tuple; it can still fail when the sub-boundary is chosen. */
    method AddTupleText(random: Random, start: nat, meta: bytes, metaType: bytes, source: bytes, payloadType: bytes,
                        ghost limit: nat)
      returns (code: Code, ghost sub: bytes, next: nat)
      requires IsBoundary(boundary)
      requires start + TupleReservation(|metaType|, |payloadType|, |source|, |meta|) <= limit <= payload.Length
      modifies payload
      ensures code == Ok || IsLocalFailure(code)
      ensures code == Ok ==>
                && IsBoundary(sub) && start <= next <= limit
                && payload[..next]
                   == old(payload[..start]) + Encode(boundary, Tuple(sub, metaType, meta, payloadType, source))
      ensures code != Ok ==> payload[..start] == old(payload[..start])
    {
      sub := [];
      ghost var text := payload[..start];
      code, next := AddBoundary(start, boundary, Open, limit);
      var subBoundary;
      code, subBoundary := GenerateBoundary(random);
      if code != Ok {
        assert payload[..start] == payload[..next][..start];
        return;
      }
      sub := subBoundary;
      code, next := AddTupleParts(next, subBoundary, meta, metaType, source, payloadType, limit);
      RegroupEncode(text, OpenLine(boundary), TypeLine(RELATED + subBoundary), CRLF,
                    SubPart(subBoundary, metaType, meta), SubPart(subBoundary, payloadType, source),
                    CloseLine(subBoundary));
    }

    /** Everything of a tuple behind its main boundary line. */
    method AddTupleParts(start: nat, sub: bytes, meta: bytes, metaType: bytes, source: bytes, payloadType: bytes,
                         ghost limit: nat)
      returns (code: Code, next: nat)
      requires IsBoundary(sub) && limit <= payload.Length
      requires start + |TupleParts(sub, meta, metaType, source, payloadType)| + NUL_SIZE <= limit
      modifies payload
      ensures code == Ok && next == start + |TupleParts(sub, meta, metaType, source, payloadType)|
      ensures payload[..next] == old(payload[..start]) + TupleParts(sub, meta, metaType, source, payloadType)
      ensures payload[limit..] == old(payload[limit..])
    {
      ghost var text := payload[..start];
      var at := start;
      code, at := AddContentInfo(at, TypeLine(RELATED + sub), CONTENT_TYPE_LINE_LENGTH, limit);
      at := AddBlankLine(at, limit);
      code, at := AddSubPart(at, sub, metaType, meta, limit);
      code, at := AddSubPart(at, sub, payloadType, source, limit);
      code, next := AddBoundary(at, sub, Close, limit);
      RegroupParts(text, TypeLine(RELATED + sub), CRLF, SubPart(sub, metaType, meta), SubPart(sub, payloadType, source),
                   CloseLine(sub));
    }

    /** One half of a tuple: its sub-boundary line, header, blank line, content and line end. */
    method AddSubPart(start: nat, sub: bytes, kind: bytes, content: bytes, ghost limit: nat)
      returns (code: Code, next: nat)
      requires IsBoundary(sub) && start + |SubPart(sub, kind, content)| + NUL_SIZE <= limit <= payload.Length
      modifies payload
      ensures code == Ok && next == start + |SubPart(sub, kind, content)|
      ensures payload[..next] == old(payload[..start]) + SubPart(sub, kind, content)
      ensures payload[limit..] == old(payload[limit..])
    {
      ghost var text := payload[..start];
      var at := start;
      code, at := AddHead(at, sub, kind, limit);
      Copy(payload, at, content, limit);
      at := at + |content|;
      next := AddBlankLine(at, limit);
      RegroupSubPart(text, OpenLine(sub), TypeLine(kind), CRLF, content);
    }

    /** Adds a single part. */
    method AddSingle(contentType: bytes, contentId: bytes, meta: bytes) returns (code: Code)
      requires Valid()
      modifies this`payload, this`payloadSize, this`payloadOffset, payload
      ensures Valid() && (payload == old(payload) || fresh(payload))
      ensures code == if Grown(old(payloadSize), old(payloadOffset), maxPayloadSize, resizeEnabled,
                               SingleReservation(|contentType|, |contentId|, |meta|)).None?
                      then HttpRequestNoMoreSpace else Ok
      ensures code == Ok ==> Text() == old(Text()) + Encode(boundary, Single(contentType, contentId, meta))
      ensures code != Ok ==> Text() == old(Text())
    {
      code := Reserve(SingleReservation(|contentType|, |contentId|, |meta|));
      if code != Ok {
        return;
      }
      ghost var limit := payloadOffset + SingleReservation(|contentType|, |contentId|, |meta|);
      code, payloadOffset := AddSingleText(payloadOffset, contentType, contentId, meta, limit);
    }

    method AddSingleText(start: nat, contentType: bytes, contentId: bytes, meta: bytes, ghost limit: nat)
      returns (code: Code, next: nat)
      requires IsBoundary(boundary) && limit <= payload.Length
      requires start + |Encode(boundary, Single(contentType, contentId, meta))| + NUL_SIZE <= limit
      modifies payload
      ensures code == Ok && next == start + |Encode(boundary, Single(contentType, contentId, meta))|
      ensures payload[..next] == old(payload[..start]) + Encode(boundary, Single(contentType, contentId, meta))
      ensures payload[limit..] == old(payload[limit..])
    {
      ghost var text := payload[..start];
      var at := start;
      code, at := AddSingleHead(at, contentType, contentId, limit);
      Copy(payload, at, meta, limit);
      at := at + |meta|;
      next := AddBlankLine(at, limit);
      RegroupSingle(text, OpenLine(boundary), TypeLine(contentType), IdLine(contentId), CRLF, meta);
    }

    /** Boundary line, type line, id line and blank line of a single part. */
    method AddSingleHead(start: nat, contentType: bytes, contentId: bytes, ghost limit: nat)
      returns (code: Code, next: nat)
      requires IsBoundary(boundary) && limit <= payload.Length
      requires start + |OpenLine(boundary) + TypeLine(contentType) + IdLine(contentId) + CRLF| + NUL_SIZE <= limit
      modifies payload
      ensures code == Ok
      ensures next == start + |OpenLine(boundary) + TypeLine(contentType) + IdLine(contentId) + CRLF|
      ensures payload[..next]
              == old(payload[..start]) + OpenLine(boundary) + TypeLine(contentType) + IdLine(contentId) + CRLF
      ensures payload[limit..] == old(payload[limit..])
    {
      code, next := AddBoundary(start, boundary, Open, limit);
      code, next := AddContentInfo(next, TypeLine(contentType),
                                   CONTENT_TYPE_HEADER_LENGTH + |contentType| + NEW_LINE_LENGTH, limit);
      code, next := AddContentInfo(next, IdLine(contentId),
                                   CONTENT_ID_HEADER_LENGTH + |contentId| + NEW_LINE_LENGTH, limit);
      next := AddBlankLine(next, limit);
    }

    /** Opens a tuple whose sub-sections are added one by one. */
    method StartTuple() returns (code: Code)
      requires Valid()
      modifies this`payload, this`payloadSize, this`payloadOffset, payload
      ensures Valid() && (payload == old(payload) || fresh(payload))
      ensures code == if Grown(old(payloadSize), old(payloadOffset), maxPayloadSize, resizeEnabled, 27).None?
                      then HttpRequestNoMoreSpace else Ok
      ensures Text() == old(Text()) + (if code == Ok then OpenLine(boundary) else [])
    {
      code := Reserve(OVERHEAD_FOR_BOUNDARY);
      if code != Ok {
        return;
      }
      var at := payloadOffset;
      code, at := AddBoundary(at, boundary, Open, payloadOffset + OVERHEAD_FOR_BOUNDARY);
      payloadOffset := at;
    }

    /** Opens a sub-section; the first one of a tuple also chooses the sub-boundary. */
    method StartTupleSubSection(random: Random, contentType: bytes, given: Option<bytes>)
      returns (code: Code, sub: bytes)
      requires Valid() && (given.Some? ==> IsBoundary(given.value))
      modifies this`payload, this`payloadSize, this`payloadOffset, payload
      ensures Valid() && (payload == old(payload) || fresh(payload))
      ensures code == Ok || code == HttpRequestNoMoreSpace || IsLocalFailure(code)
      ensures code == HttpRequestNoMoreSpace
              <==> Grown(old(payloadSize), old(payloadOffset), maxPayloadSize, resizeEnabled,
                         SubSectionReservation(|contentType|, given)).None?
      ensures code == Ok ==>
                && IsBoundary(sub) && (given.Some? ==> sub == given.value)
                && Text() == old(Text()) + SubSectionStart(sub, contentType, given)
      ensures code != Ok ==> Text() == old(Text())
    {
      sub := [];
      code := Reserve(SubSectionReservation(|contentType|, given));
      if code != Ok {
        return;
      }
      hide IsBoundary, SubSectionStart;
      ghost var limit := payloadOffset + SubSectionReservation(|contentType|, given);
      var at;
      code, sub, at := AddSubSection(random, payloadOffset, contentType, given, limit);
      if code == Ok {
        payloadOffset := at;
      }
    }

    /** The text that opens a sub-section. */
    method AddSubSection(random: Random, start: nat, contentType: bytes, given: Option<bytes>, ghost limit: nat)
      returns (code: Code, sub: bytes, next: nat)
      requires given.Some? ==> IsBoundary(given.value)
      requires start + SubSectionReservation(|contentType|, given) <= limit <= payload.Length
      modifies payload
      ensures code == Ok || IsLocalFailure(code)
      ensures code == Ok ==>
                && IsBoundary(sub) && (given.Some? ==> sub == given.value) && start <= next <= limit
                && payload[..next] == old(payload[..start]) + SubSectionStart(sub, contentType, given)
      ensures code != Ok ==> payload[..] == old(payload[..])
    {
      ghost var text := payload[..start];
      next := start;
      if given == None {
        code, sub := GenerateBoundary(random);
        if code != Ok {
          return;
        }
        code, next := AddContentInfo(next, TypeLine(RELATED + sub), CONTENT_TYPE_LINE_LENGTH, limit);
      } else {
        sub := given.value;
        assert text + [] == text;
      }
      code, next := AddHead(next, sub, contentType, limit);
      Assoc(text, if given == None then TypeLine(RELATED + sub) else [], Head(sub, contentType));
    }

    /** Sub-boundary line, type line and blank line. */
    method AddHead(start: nat, sub: bytes, kind: bytes, ghost limit: nat) returns (code: Code, next: nat)
      requires IsBoundary(sub) && start + |Head(sub, kind)| + NUL_SIZE <= limit <= payload.Length
      modifies payload
      ensures code == Ok && next == start + |Head(sub, kind)|
      ensures payload[..next] == old(payload[..start]) + Head(sub, kind)
      ensures payload[limit..] == old(payload[limit..])
    {
      ghost var text := payload[..start];
      var at := start;
      code, at := AddBoundary(at, sub, Open, limit);
      code, at := AddContentInfo(at, TypeLine(kind), CONTENT_TYPE_HEADER_LENGTH + |kind| + NEW_LINE_LENGTH, limit);
      next := AddBlankLine(at, limit);
      RegroupStart(text, OpenLine(sub), TypeLine(kind), CRLF);
    }

    /**
     Closes a tuple. Where the granted reservation is too small the library writes behind the end of the buffer;
     here `overrun` says so, and nothing is written.
     */
    method EndTupleSubSection(sub: bytes) returns (code: Code, overrun: bool)
      requires Valid() && IsBoundary(sub)
      modifies this`payload, this`payloadSize, this`payloadOffset, payload
      ensures Valid() && (payload == old(payload) || fresh(payload))
      ensures overrun <==> !CloseFits(old(payloadSize), old(payloadOffset), maxPayloadSize, resizeEnabled)
      ensures code == if Grown(old(payloadSize), old(payloadOffset), maxPayloadSize, resizeEnabled, 27).None?
                      then HttpRequestNoMoreSpace else Ok
      ensures Text() == old(Text()) + (if code == Ok && !overrun then CloseLine(sub) else [])
    {
      overrun := false;
      code := Reserve(CLOSE_RESERVATION);
      if code != Ok {
        return;
      }
      var at := payloadOffset;
      if payloadSize - at < CLOSE_NEED {
        overrun := true;
        return;
      }
      code, at := AddBoundary(at, sub, Close, payloadOffset + CLOSE_NEED);
      payloadOffset := at;
    }

    /** Writes the closing main boundary; a growing buffer is cut to exactly the text. */
    method Finalize() returns (code: Code)
      requires Valid()
      modifies this`payload, this`payloadSize, this`payloadOffset, payload
      ensures Valid() && (payload == old(payload) || fresh(payload))
      ensures code == if 26 <= (if resizeEnabled then maxPayloadSize else old(payloadSize)) - old(payloadOffset)
                      then Ok else HttpRequestFinalizeFailed
      ensures code == Ok ==> Text() == old(Text()) + Closing(boundary)
      ensures code == Ok && resizeEnabled ==> payloadSize == payloadOffset && payload[..] == Text()
      ensures code != Ok ==> Text() == old(Text())
    {
      var maxAllowed := (if resizeEnabled then maxPayloadSize else payloadSize) - payloadOffset;
      if FINALIZE_SIZE > maxAllowed {
        return HttpRequestFinalizeFailed;
      }
      assert |boundary| == BOUNDARY_LENGTH;
      hide IsBoundary;
      if resizeEnabled {
        Resize(payloadOffset + FINALIZE_SIZE);
      }
      payloadOffset := AddClosing(payloadOffset, payloadOffset + FINALIZE_SIZE);
      return Ok;
    }

    /** The closing main boundary, without a terminator. */
    method AddClosing(start: nat, ghost limit: nat) returns (next: nat)
      requires |boundary| == BOUNDARY_LENGTH && start + FINALIZE_SIZE <= limit <= payload.Length
      modifies payload
      ensures next == start + FINALIZE_SIZE && payload[..next] == old(payload[..start]) + Closing(boundary)
    {
      ghost var text := payload[..start];
      next := start;
      Copy(payload, next, DASHES, limit);
      next := next + BOUNDARY_SIGN_LENGTH;
      Copy(payload, next, boundary, limit);
      next := next + BOUNDARY_LENGTH;
      Copy(payload, next, DASHES, limit);
      next := next + BOUNDARY_SIGN_LENGTH;
      assert payload[..next] == text + DASHES + boundary + DASHES;
    }
  }

  lemma RegroupStart(s: bytes, a: bytes, b: bytes, c: bytes)
    ensures s + a + b + c == s + (a + b + c)
  {
  }

  lemma RegroupSubPart(s: bytes, o: bytes, t: bytes, c: bytes, content: bytes)
    ensures s + (o + t + c) + content + c == s + (o + (t + c + content) + c)
  {
  }

  lemma RegroupEncode(s: bytes, o: bytes, t: bytes, c: bytes, p: bytes, q: bytes, z: bytes)
    ensures (s + o) + (t + c + p + q + z) == s + ((o + t + c) + p + q + z)
  {
  }

  lemma RegroupParts(s: bytes, t: bytes, c: bytes, p: bytes, q: bytes, z: bytes)
    ensures s + t + c + p + q + z == s + (t + c + p + q + z)
  {
  }

  lemma RegroupSingle(s: bytes, o: bytes, t: bytes, i: bytes, c: bytes, meta: bytes)
    ensures s + o + t + i + c + meta + c == s + (o + (t + i + c + meta) + c)
  {
  }
}
