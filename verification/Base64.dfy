/** The two base64 codecs (sections 4 and 5 of RFC 4648), with padding. */
module Base64 {
  import opened Codes
  import opened Multipart

  const PAD: byte := 61  // '='
  const QUANTUM_SIZE: nat := 4
  const INPUT_GROUP_SIZE: nat := 3

  datatype Alphabet = Standard | Url

  const LETTERS_AND_DIGITS: bytes :=
    Ascii("ABCDEFGHIJKLMNOPQRSTUVWXYZ") + Ascii("abcdefghijklmnopqrstuvwxyz") + Ascii("0123456789")

  /** The encoding table. */
  function Symbol(alphabet: Alphabet, v: nat): byte
    requires v < 64
  {
    if v < 62 then LETTERS_AND_DIGITS[v]
    else if v == 62 then (if alphabet == Standard then 43 else 45)
    else (if alphabet == Standard then 47 else 95)
  }

  /** The decoding table; None stands for its entry 0xFF. */
  function Value(alphabet: Alphabet, c: byte): Option<nat> {
    if 65 <= c <= 90 then Some(c as int - 65)
    else if 97 <= c <= 122 then Some(c as int - 71)
    else if 48 <= c <= 57 then Some(c as int + 4)
    else if c == (if alphabet == Standard then 43 else 45) then Some(62)
    else if c == (if alphabet == Standard then 47 else 95) then Some(63)
    else None
  }

  lemma Upper(v: nat)
    requires v < 26
    ensures "ABCDEFGHIJKLMNOPQRSTUVWXYZ"[v] as int == v + 65
  {
  }

  lemma Lower(v: nat)
    requires v < 26
    ensures "abcdefghijklmnopqrstuvwxyz"[v] as int == v + 97
  {
  }

  lemma Digit(v: nat)
    requires v < 10
    ensures "0123456789"[v] as int == v + 48
  {
  }

  lemma Letter(v: nat)
    requires v < 62
    ensures LETTERS_AND_DIGITS[v] as int == if v < 26 then v + 65 else if v < 52 then v + 71 else v - 4
  {
    if v < 26 {
      Upper(v);
    } else if v < 52 {
      Lower(v - 26);
    } else {
      Digit(v - 52);
    }
  }

  /** The two tables are inverse to each other, and the padding character is in neither alphabet. */
  lemma TablesAreInverse(alphabet: Alphabet, v: nat)
    requires v < 64
    ensures Value(alphabet, Symbol(alphabet, v)) == Some(v)
    ensures Symbol(alphabet, v) != PAD && Symbol(alphabet, v) != 0
  {
    if v < 62 {
      Letter(v);
    }
  }

  lemma SymbolOfValue(alphabet: Alphabet, c: byte)
    requires Value(alphabet, c).Some?
    ensures Value(alphabet, c).value < 64 && Symbol(alphabet, Value(alphabet, c).value) == c
    ensures c != PAD && c != 0
  {
    var v := Value(alphabet, c).value;
    if v < 62 {
      Letter(v);
    }
  }

  lemma StandardLetter(v: nat)
    requires v < 64
    ensures
      "ABCDEFGHIJKLMNOPQRSTUVWXYZabcdefghijklmnopqrstuvwxyz0123456789+/"[v] as int
      == if v < 26 then v + 65 else if v < 52 then v + 71 else if v < 62 then v - 4 else if v == 62 then 43 else 47
  {
    if v < 26 {
      Upper(v);
    }
  }

  lemma UrlLetter(v: nat)
    requires v < 64
    ensures
      "ABCDEFGHIJKLMNOPQRSTUVWXYZabcdefghijklmnopqrstuvwxyz0123456789-_"[v] as int
      == if v < 26 then v + 65 else if v < 52 then v + 71 else if v < 62 then v - 4 else if v == 62 then 45 else 95
  {
    if v < 26 {
      Upper(v);
    }
  }

  function Letters(alphabet: Alphabet): (s: string)
    ensures |s| == 64
  {
    match alphabet
    case Standard => "ABCDEFGHIJKLMNOPQRSTUVWXYZabcdefghijklmnopqrstuvwxyz0123456789+/"
    case Url => "ABCDEFGHIJKLMNOPQRSTUVWXYZabcdefghijklmnopqrstuvwxyz0123456789-_"
  }

  /** The encoding tables are the alphabets of sections 4 and 5 of RFC 4648, letter by letter. */
  lemma SymbolIsLetter(alphabet: Alphabet, v: nat)
    requires v < 64
    ensures Symbol(alphabet, v) as int == Letters(alphabet)[v] as int
    ensures Letters(Standard) == "ABCDEFGHIJKLMNOPQRSTUVWXYZabcdefghijklmnopqrstuvwxyz0123456789+/"
    ensures Letters(Url) == "ABCDEFGHIJKLMNOPQRSTUVWXYZabcdefghijklmnopqrstuvwxyz0123456789-_"
  {
    StandardLetter(v);
    UrlLetter(v);
    if v < 62 {
      Letter(v);
    }
  }

  /** The decoding tables know exactly the characters of their alphabet, and give each its position there. */
  lemma ValueIsPosition(c: byte, v: nat)
    ensures Value(Standard, c) == Some(v)
            <==> v < 64 && c as int == "ABCDEFGHIJKLMNOPQRSTUVWXYZabcdefghijklmnopqrstuvwxyz0123456789+/"[v] as int
    ensures Value(Url, c) == Some(v)
            <==> v < 64 && c as int == "ABCDEFGHIJKLMNOPQRSTUVWXYZabcdefghijklmnopqrstuvwxyz0123456789-_"[v] as int
  {
    if v < 64 {
      StandardLetter(v);
      UrlLetter(v);
    }
  }

  // ---------- encoding ----------

  /** The byte at a position of an input group, zero behind its end. */
  function ByteAt(g: bytes, i: nat): nat {
    if i < |g| then g[i] as nat else 0
  }

  /** The 24 bits of an input group as a number. */
  function Bits(g: bytes): nat {
    ByteAt(g, 0) * 0x1_0000 + ByteAt(g, 1) * 0x100 + ByteAt(g, 2)
  }

  /** The digits to base 64, most significant first. */
  function Digits(n: nat): (d: seq<nat>)
    ensures |d| == 4
  {
    [n / 64 / 64 / 64 % 64, n / 64 / 64 % 64, n / 64 % 64, n % 64]
  }

  /** A group of one to three bytes as four characters: one digit more than bytes, then padding. */
  function EncodeGroup(alphabet: Alphabet, g: bytes): (q: bytes)
    requires 0 < |g| <= 3
    ensures |q| == 4
  {
    var d := Digits(Bits(g));
    [Symbol(alphabet, d[0]), Symbol(alphabet, d[1]), if |g| > 1 then Symbol(alphabet, d[2]) else PAD,
     if |g| > 2 then Symbol(alphabet, d[3]) else PAD]
  }

  function Encoded(alphabet: Alphabet, data: bytes): bytes {
    if data == [] then []
    else if |data| < 3 then EncodeGroup(alphabet, data)
    else EncodeGroup(alphabet, data[..3]) + Encoded(alphabet, data[3..])
  }

  lemma {:induction false} EncodedLength(alphabet: Alphabet, data: bytes)
    ensures |Encoded(alphabet, data)| == (|data| + 2) / 3 * 4
  {
    hide EncodeGroup;
    if |data| >= 3 {
      EncodedLength(alphabet, data[3..]);
      assert (|data| - 3 + 2) / 3 + 1 == (|data| + 2) / 3;
    }
  }

  /** With its terminator the text just fits the buffer the encoder allocates. */
  lemma EncodedFits(alphabet: Alphabet, data: bytes)
    ensures |Encoded(alphabet, data)| + 1 <= |data| * QUANTUM_SIZE / INPUT_GROUP_SIZE + QUANTUM_SIZE
    ensures |Encoded(alphabet, data)| + 1 == |data| * QUANTUM_SIZE / INPUT_GROUP_SIZE + QUANTUM_SIZE
            <==> |data| % 3 == 1
  {
    hide Encoded;
    EncodedLength(alphabet, data);
    var m, r := |data| / 3, |data| % 3;
    assert |data| * 4 == 3 * (4 * m) + 4 * r;
    assert (|data| + 2) / 3 == m + (r + 2) / 3 && |data| * 4 / 3 == 4 * m + 4 * r / 3;
  }

  // ---------- decoding ----------

  function Pads(q: bytes): nat {
    if q == [] then 0 else Pads(q[..|q| - 1]) + (if q[|q| - 1] == PAD then 1 else 0)
  }

  /** The value of a character; padding counts as zero. */
  function ValueOr0(alphabet: Alphabet, c: byte): nat {
    if c != PAD && Value(alphabet, c).Some? then Value(alphabet, c).value else 0
  }

  /** The characters read as digits to base 64. */
  function Number(alphabet: Alphabet, q: bytes): nat {
    if q == [] then 0 else Number(alphabet, q[..|q| - 1]) * 64 + ValueOr0(alphabet, q[|q| - 1])
  }

  predicate Readable(alphabet: Alphabet, c: byte) {
    c == PAD || Value(alphabet, c).Some?
  }

  /** The three bytes of a 24 bit number. */
  function Octets(n: nat): (b: bytes)
    ensures |b| == 3
  {
    [(n / 0x100 / 0x100 % 0x100) as byte, (n / 0x100 % 0x100) as byte, (n % 0x100) as byte]
  }

  /** One byte less than characters; two paddings are the most a quantum can have. */
  function DecodeGroup(alphabet: Alphabet, q: bytes): bytes {
    Octets(Number(alphabet, q))[..if Pads(q) < 3 then 3 - Pads(q) else 0]
  }

  /** Whole quanta; '=' only as the last one or two characters, everything else in the alphabet. */
  predicate WellFormed(alphabet: Alphabet, s: bytes) {
    && |s| > 0 && |s| % 4 == 0
    && (forall i :: 0 <= i < |s| ==> Readable(alphabet, s[i]))
    && (forall i :: 0 <= i < |s| - 2 ==> s[i] != PAD)
    && (s[|s| - 2] == PAD ==> s[|s| - 1] == PAD)
  }

  function Decoded(alphabet: Alphabet, s: bytes): bytes {
    if |s| < 4 then [] else DecodeGroup(alphabet, s[..4]) + Decoded(alphabet, s[4..])
  }

  // ---------- the algorithms ----------

  /** Decodes the four characters at `from` to position `at`; tells how many bytes that gave. */
  method DecodeQuantum(alphabet: Alphabet, s: bytes, from: nat, destination: array<byte>, at: nat)
    returns (code: Code, count: nat)
    requires from + 4 <= |s| && at < destination.Length
    requires at + 3 <= destination.Length + Pads(s[from..from + 4])
    modifies destination
    ensures code == Ok || code == BadContentEncoding
    ensures code == Ok <==> Pads(s[from..from + 4]) < 3 && forall i :: from <= i < from + 4 ==> Readable(alphabet, s[i])
    ensures code == Ok ==>
              && count == 3 - Pads(s[from..from + 4]) && at + count <= destination.Length
              && destination[..at + count] == old(destination[..at]) + DecodeGroup(alphabet, s[from..from + 4])
  {
    ghost var q := s[from..from + 4];
    var data, padding, index := 0, 0, 0;
    while index < QUANTUM_SIZE
      invariant 0 <= index <= 4
      invariant padding == Pads(q[..index]) && padding < 3
      invariant data == Number(alphabet, q[..index])
      invariant forall i :: from <= i < from + index ==> Readable(alphabet, s[i])
    {
      var c := s[from + index];
      assert q[index] == c && q[..index + 1][..index] == q[..index];
      if c == PAD {
        data := data * 64;
        padding := padding + 1;
        if padding == 3 {
          PadsGrow(q, index + 1);
          return BadContentEncoding, 0;
        }
      } else {
        var value := Value(alphabet, c);
        if value == None {
          assert !Readable(alphabet, s[from + index]);
          return BadContentEncoding, 0;
        }
        data := data * 64 + value.value;
      }
      index := index + 1;
    }
    assert q[..4] == q;
    if padding < 1 {
      destination[at + 2] := (data % 0x100) as byte;
    }
    data := data / 0x100;
    if padding < 2 {
      destination[at + 1] := (data % 0x100) as byte;
    }
    data := data / 0x100;
    destination[at] := (data % 0x100) as byte;
    return Ok, 3 - padding;
  }

  lemma {:induction false} PadsGrow(q: bytes, n: nat)
    requires n <= |q|
    ensures Pads(q[..n]) <= Pads(q)
    decreases |q| - n
  {
    if n < |q| {
      assert q[..n + 1][..n] == q[..n];
      PadsGrow(q, n + 1);
    } else {
      assert q[..n] == q;
    }
  }

  lemma PadsOfFour(q: bytes)
    requires |q| == 4
    ensures Pads(q) == (if q[0] == PAD then 1 else 0) + (if q[1] == PAD then 1 else 0)
                       + (if q[2] == PAD then 1 else 0) + (if q[3] == PAD then 1 else 0)
  {
    assert q[..3][..2] == q[..2] && q[..2][..1] == q[..1] && q[..1][..0] == [];
    assert Pads(q[..1]) == if q[0] == PAD then 1 else 0;
    assert Pads(q[..2]) == Pads(q[..1]) + if q[1] == PAD then 1 else 0;
    assert Pads(q[..3]) == Pads(q[..2]) + if q[2] == PAD then 1 else 0;
  }

  lemma {:induction false} DecodedSnoc(alphabet: Alphabet, s: bytes, q: bytes)
    requires |s| % 4 == 0 && |q| == 4
    ensures Decoded(alphabet, s + q) == Decoded(alphabet, s) + DecodeGroup(alphabet, q)
  {
    if s == [] {
      assert s + q == q && q[..4] == q && q[4..] == [];
    } else {
      assert (s + q)[..4] == s[..4] && (s + q)[4..] == s[4..] + q;
      DecodedSnoc(alphabet, s[4..], q);
    }
  }

  /** What the search for padding has found out. */
  ghost predicate PaddedAt(s: bytes, index: nat, padding: nat) {
    && padding <= 2 && index + padding == |s|
    && (forall i :: 0 <= i < index ==> s[i] != PAD)
    && (forall i :: index <= i < |s| ==> s[i] == PAD)
  }

  /** Finds the first padding character and counts up to two of them. */
  method FindPadding(alphabet: Alphabet, s: bytes) returns (ok: bool, padding: nat)
    requires |s| > 0 && |s| % 4 == 0
    ensures ok ==> exists index :: PaddedAt(s, index, padding)
    ensures !ok ==> !WellFormed(alphabet, s)
  {
    var buffer := s + [0];
    var index := 0;
    while buffer[index] != PAD && buffer[index] != 0
      invariant 0 <= index <= |s|
      invariant forall i :: 0 <= i < index ==> s[i] != PAD
      decreases |s| - index
    {
      index := index + 1;
    }
    padding := 0;
    if buffer[index] == PAD {
      padding := 1;
      if buffer[index + 1] == PAD {
        padding := 2;
      }
    }
    ok := index + padding == |s|;
    if ok {
      assert PaddedAt(s, index, padding);
    } else if buffer[index] == 0 {
      assert !Readable(alphabet, s[index]);
    }
  }

  lemma PadsOfQuantum(s: bytes, padding: nat, index: nat, k: nat)
    requires |s| % 4 == 0 && PaddedAt(s, index, padding) && 4 * k + 4 <= |s|
    ensures Pads(s[4 * k..4 * k + 4]) == if 4 * k + 4 == |s| then padding else 0
  {
    var q := s[4 * k..4 * k + 4];
    PadsOfFour(q);
    assert forall i :: 0 <= i < 4 ==> q[i] == s[4 * k + i];
  }

  lemma PaddedIsWellFormed(alphabet: Alphabet, s: bytes, index: nat, padding: nat)
    requires |s| > 0 && |s| % 4 == 0 && PaddedAt(s, index, padding)
    ensures WellFormed(alphabet, s) <==> forall i :: 0 <= i < |s| ==> Readable(alphabet, s[i])
  {
  }

  /** Decodes quantum by quantum into a buffer of exactly the right size. */
  method DecodeQuantums(alphabet: Alphabet, s: bytes, padding: nat, ghost first: nat) returns (code: Code, data: bytes)
    requires |s| > 0 && |s| % 4 == 0 && PaddedAt(s, first, padding)
    ensures code == Ok || code == BadContentEncoding
    ensures code == Ok <==> forall i :: 0 <= i < |s| ==> Readable(alphabet, s[i])
    ensures code == Ok ==> data == Decoded(alphabet, s)
  {
    hide DecodeGroup, Pads, Readable;
    var quantums := |s| / QUANTUM_SIZE;
    var rawLength := quantums * INPUT_GROUP_SIZE - padding;
    var buffer := new byte[rawLength + 1];
    var position, index := 0, 0;
    while index < quantums
      invariant 0 <= index <= quantums
      invariant position == if index == quantums then rawLength else 3 * index
      invariant buffer[..position] == Decoded(alphabet, s[..4 * index])
      invariant forall i :: 0 <= i < 4 * index ==> Readable(alphabet, s[i])
    {
      var count;
      PadsOfQuantum(s, padding, first, index);
      code, count := DecodeQuantum(alphabet, s, 4 * index, buffer, position);
      if code != Ok {
        return BadContentEncoding, [];
      }
      DecodedSnoc(alphabet, s[..4 * index], s[4 * index..4 * index + 4]);
      assert s[..4 * index] + s[4 * index..4 * index + 4] == s[..4 * (index + 1)];
      position := position + count;
      index := index + 1;
    }
    buffer[position] := 0;
    assert s[..4 * quantums] == s;
    return Ok, buffer[..rawLength];
  }

  /** Succeeds exactly on well-formed text. */
  method Decode(alphabet: Alphabet, s: bytes) returns (code: Code, data: bytes)
    ensures code == Ok || code == BadContentEncoding
    ensures code == Ok <==> WellFormed(alphabet, s)
    ensures code == Ok ==> data == Decoded(alphabet, s)
  {
    if |s| == 0 || |s| % QUANTUM_SIZE != 0 {
      return BadContentEncoding, [];
    }
    var ok, padding := FindPadding(alphabet, s);
    if !ok {
      return BadContentEncoding, [];
    }
    ghost var first :| PaddedAt(s, first, padding);
    PaddedIsWellFormed(alphabet, s, first, padding);
    code, data := DecodeQuantums(alphabet, s, padding, first);
  }

  lemma LastDigit(x: nat, y: nat)
    requires y < 64
    ensures (x * 64 + y) / 64 == x && (x * 64 + y) % 64 == y
  {
  }

  lemma DigitsOfNumber(d: nat, e: nat, f: nat, g: nat)
    requires d < 64 && e < 64 && f < 64 && g < 64
    ensures Digits(((d * 64 + e) * 64 + f) * 64 + g) == [d, e, f, g]
  {
    LastDigit((d * 64 + e) * 64 + f, g);
    LastDigit(d * 64 + e, f);
    LastDigit(d, e);
  }

  /** The shifts and masks of the encoder compute the digits of the group. */
  lemma DigitsOfBytes(a: nat, b: nat, c: nat)
    requires a < 256 && b < 256 && c < 256
    ensures Digits(a * 0x1_0000 + b * 0x100 + c) == [a / 4, a % 4 * 16 + b / 16, b % 16 * 4 + c / 64, c % 64]
  {
    var d, e, f, g := a / 4, a % 4 * 16 + b / 16, b % 16 * 4 + c / 64, c % 64;
    assert a == d * 4 + a % 4 && b == b / 16 * 16 + b % 16 && c == c / 64 * 64 + g;
    assert ((d * 64 + e) * 64 + f) * 64 + g == a * 0x1_0000 + b * 0x100 + c;
    DigitsOfNumber(d, e, f, g);
  }

  method SplitBytes(a: nat, b: nat, c: nat) returns (d: seq<nat>)
    requires a < 256 && b < 256 && c < 256
    ensures d == Digits(a * 0x1_0000 + b * 0x100 + c) && d[0] < 64 && d[1] < 64 && d[2] < 64 && d[3] < 64
  {
    DigitsOfBytes(a, b, c);
    d := [a / 4, a % 4 * 16 + b / 16, b % 16 * 4 + c / 64, c % 64];
  }

  lemma {:induction false} EncodedSnoc(alphabet: Alphabet, data: bytes, g: bytes)
    requires |data| % 3 == 0 && 0 < |g| <= 3
    ensures Encoded(alphabet, data + g) == Encoded(alphabet, data) + EncodeGroup(alphabet, g)
  {
    if data == [] {
      assert data + g == g;
      assert |g| == 3 ==> g[..3] == g && g[3..] == [];
    } else {
      assert (data + g)[..3] == data[..3] && (data + g)[3..] == data[3..] + g;
      EncodedSnoc(alphabet, data[3..], g);
    }
  }

  /** Writes the four characters of a group of `parts` bytes; the rest of the group is zero. */
  method EncodeQuantum(alphabet: Alphabet, input: array<byte>, parts: nat, output: array<byte>, at: nat, ghost g: bytes)
    requires input.Length == 3 && input != output && 0 < parts == |g| <= 3 && at + 4 <= output.Length
    requires forall i :: 0 <= i < 3 ==> input[i] as nat == ByteAt(g, i)
    modifies output
    ensures output[..at + 4] == old(output[..at]) + EncodeGroup(alphabet, g)
  {
    var d := SplitBytes(input[0] as nat, input[1] as nat, input[2] as nat);
    ghost var q := EncodeGroup(alphabet, g);
    assert d == Digits(Bits(g));
    hide Symbol, Digits, Bits, ByteAt;
    output[at] := Symbol(alphabet, d[0]);
    output[at + 1] := Symbol(alphabet, d[1]);
    if parts == 1 {
      output[at + 2] := PAD;
      output[at + 3] := PAD;
    } else if parts == 2 {
      output[at + 2] := Symbol(alphabet, d[2]);
      output[at + 3] := PAD;
    } else {
      output[at + 2] := Symbol(alphabet, d[2]);
      output[at + 3] := Symbol(alphabet, d[3]);
    }
    assert q == [output[at], output[at + 1], output[at + 2], output[at + 3]];
    hide EncodeGroup;
    assert output[..at + 4] == output[..at] + q;
  }

  /** Takes the next bytes of the data, at most three, and fills up with zeros. */
  method TakeGroup(data: bytes, start: nat, input: array<byte>) returns (parts: nat)
    requires start < |data| && input.Length == 3
    modifies input
    ensures parts == if |data| - start < 3 then |data| - start else 3
    ensures forall i :: 0 <= i < 3 ==> input[i] as nat == ByteAt(data[start..start + parts], i)
  {
    parts := 0;
    var index := 0;
    while index < INPUT_GROUP_SIZE
      invariant 0 <= index <= 3
      invariant parts == if |data| - start < index then |data| - start else index
      invariant forall i :: 0 <= i < index ==> input[i] as nat == ByteAt(data[start..], i)
    {
      if start + parts < |data| {
        input[index] := data[start + parts];
        parts := parts + 1;
      } else {
        input[index] := 0;
      }
      index := index + 1;
    }
  }

  lemma {:induction false} EncodedPrefix(alphabet: Alphabet, data: bytes, n: nat)
    requires n <= |data|
    ensures |Encoded(alphabet, data[..n])| <= |Encoded(alphabet, data)|
  {
    EncodedLength(alphabet, data);
    EncodedLength(alphabet, data[..n]);
  }

  lemma EncodedStep(alphabet: Alphabet, data: bytes, next: nat, parts: nat)
    requires next % 3 == 0 && 0 < parts <= 3 && next + parts <= |data|
    ensures
      var text := Encoded(alphabet, data[..next + parts]);
      && text == Encoded(alphabet, data[..next]) + EncodeGroup(alphabet, data[next..next + parts])
      && |text| <= |Encoded(alphabet, data)|
  {
    hide EncodeGroup, Encoded;
    EncodedSnoc(alphabet, data[..next], data[next..next + parts]);
    assert data[..next] + data[next..next + parts] == data[..next + parts];
    EncodedPrefix(alphabet, data, next + parts);
  }

  method Encode(alphabet: Alphabet, data: bytes) returns (text: bytes)
    ensures text == Encoded(alphabet, data)
  {
    hide EncodeGroup, ByteAt;
    var output := new byte[|data| * QUANTUM_SIZE / INPUT_GROUP_SIZE + QUANTUM_SIZE];
    var input := new byte[INPUT_GROUP_SIZE];
    var next, at := 0, 0;
    EncodedFits(alphabet, data);
    while next < |data|
      invariant 0 <= next <= |data| && (next % 3 == 0 || next == |data|)
      invariant at < output.Length && output[..at] == Encoded(alphabet, data[..next])
    {
      var parts := TakeGroup(data, next, input);
      ghost var g := data[next..next + parts];
      EncodedStep(alphabet, data, next, parts);
      EncodeQuantum(alphabet, input, parts, output, at, g);
      next := next + parts;
      at := at + 4;
    }
    assert data[..next] == data;
    output[at] := 0;
    return output[..at];
  }

  // ---------- the text, character by character ----------

  /** The six bits of three bytes that begin at bit `6 * j`. */
  function Sextet(a: nat, b: nat, c: nat, j: nat): nat {
    if j == 0 then a / 4 else if j == 1 then a % 4 * 16 + b / 16 else if j == 2 then b % 16 * 4 + c / 64 else c % 64
  }

  lemma SextetIsBits(a: nat, b: nat, c: nat)
    ensures Sextet(a, b, c, 0) == a / 4 && Sextet(a, b, c, 1) == a % 4 * 16 + b / 16
    ensures Sextet(a, b, c, 2) == b % 16 * 4 + c / 64 && Sextet(a, b, c, 3) == c % 64
  {
  }

  lemma SextetIsDigit(a: nat, b: nat, c: nat, j: nat)
    requires a < 256 && b < 256 && c < 256 && j < 4
    ensures Sextet(a, b, c, j) == Digits(a * 0x1_0000 + b * 0x100 + c)[j] && Sextet(a, b, c, j) < 64
  {
    DigitsOfBytes(a, b, c);
    hide Digits;
  }

  /** The characters of one group, from the bits of its bytes. */
  lemma GroupCharacter(alphabet: Alphabet, g: bytes, j: nat)
    requires 0 < |g| <= 3 && j < 4
    ensures
      var v := Sextet(ByteAt(g, 0), ByteAt(g, 1), ByteAt(g, 2), j);
      v < 64 && EncodeGroup(alphabet, g)[j] as int == if j > |g| then '=' as int else Letters(alphabet)[v] as int
  {
    SextetIsDigit(ByteAt(g, 0), ByteAt(g, 1), ByteAt(g, 2), j);
    hide Digits, Symbol, Sextet, Letters;
    SymbolIsLetter(alphabet, Sextet(ByteAt(g, 0), ByteAt(g, 1), ByteAt(g, 2), j));
  }

  lemma {:induction false} EncodedLetter(alphabet: Alphabet, data: bytes, i: nat)
    requires i < (|data| + 2) / 3 * 4
    ensures |Encoded(alphabet, data)| == (|data| + 2) / 3 * 4 && i / 4 * 3 < |data|
    ensures
      var k := i / 4 * 3;
      var v := Sextet(ByteAt(data, k), ByteAt(data, k + 1), ByteAt(data, k + 2), i % 4);
      v < 64
      && Encoded(alphabet, data)[i] as int == if k + i % 4 > |data| then '=' as int else Letters(alphabet)[v] as int
    decreases |data|
  {
    EncodedLength(alphabet, data);
    hide EncodeGroup, Sextet, Letters;
    if i < 4 {
      GroupCharacter(alphabet, if |data| < 3 then data else data[..3], i);
    } else {
      EncodedLetter(alphabet, data[3..], i - 4);
      assert (i - 4) / 4 == i / 4 - 1 && (i - 4) % 4 == i % 4;
    }
  }

  /**
   What stands at position `i` of an encoded text: the letter, in the alphabet of section 4 or 5 of RFC 4648, of the
   six bits that begin at bit `6 * i` of the data, or padding if no bit of these belongs to the data.
   */
  lemma EncodedCharacter(alphabet: Alphabet, data: bytes, i: nat, v: nat)
    requires i < (|data| + 2) / 3 * 4
    requires i % 4 == 0 ==> v == ByteAt(data, i / 4 * 3) / 4
    requires i % 4 == 1 ==> v == ByteAt(data, i / 4 * 3) % 4 * 16 + ByteAt(data, i / 4 * 3 + 1) / 16
    requires i % 4 == 2 ==> v == ByteAt(data, i / 4 * 3 + 1) % 16 * 4 + ByteAt(data, i / 4 * 3 + 2) / 64
    requires i % 4 == 3 ==> v == ByteAt(data, i / 4 * 3 + 2) % 64
    ensures |Encoded(alphabet, data)| == (|data| + 2) / 3 * 4 && v < 64
    ensures Encoded(alphabet, data)[i] as int
            == if i / 4 * 3 + i % 4 > |data| then '=' as int else Letters(alphabet)[v] as int
  {
    EncodedLetter(alphabet, data, i);
    SextetIsBits(ByteAt(data, i / 4 * 3), ByteAt(data, i / 4 * 3 + 1), ByteAt(data, i / 4 * 3 + 2));
    assert v == Sextet(ByteAt(data, i / 4 * 3), ByteAt(data, i / 4 * 3 + 1), ByteAt(data, i / 4 * 3 + 2), i % 4);
    hide Encoded, Sextet, Letters, ByteAt;
  }

  predicate AreLetters(alphabet: Alphabet, s: bytes) {
    forall i :: 0 <= i < |s| ==> s[i] as char in Letters(alphabet)
  }

  lemma ReadableIsLetter(alphabet: Alphabet, c: byte)
    ensures Readable(alphabet, c) <==> c == 61 || c as char in Letters(alphabet)
    ensures c as char in Letters(alphabet) ==> c != 61
  {
    var v := Value(alphabet, c);
    if v.Some? {
      SymbolOfValue(alphabet, c);
      ValueIsPosition(c, v.value);
      assert Letters(alphabet)[v.value] == c as char;
    }
    if c as char in Letters(alphabet) {
      var i :| 0 <= i < 64 && Letters(alphabet)[i] == c as char;
      ValueIsPosition(c, i);
      SymbolOfValue(alphabet, c);
    }
  }

  /** What is decoded: letters in groups of four, of which the last one or two characters may be '='. */
  lemma WellFormedExactly(alphabet: Alphabet, s: bytes)
    ensures WellFormed(alphabet, s)
            <==> |s| >= 4 && |s| % 4 == 0
                 && (AreLetters(alphabet, s)
                     || (AreLetters(alphabet, s[..|s| - 1]) && s[|s| - 1] == 61)
                     || (AreLetters(alphabet, s[..|s| - 2]) && s[|s| - 2] == 61 && s[|s| - 1] == 61))
  {
    hide Readable, Letters;
    forall i | 0 <= i < |s|
      ensures Readable(alphabet, s[i]) <==> s[i] == 61 || s[i] as char in Letters(alphabet)
      ensures s[i] as char in Letters(alphabet) ==> s[i] != 61
    {
      ReadableIsLetter(alphabet, s[i]);
    }
  }

  // ---------- the codecs are inverse to each other ----------

  lemma LastOctet(x: nat, y: nat)
    requires y < 0x100
    ensures (x * 0x100 + y) / 0x100 == x && (x * 0x100 + y) % 0x100 == y
  {
  }

  /** The three bytes of a number are the bytes it was put together from. */
  lemma OctetsOfBits(g: bytes)
    requires |g| <= 3
    ensures Bits(g) < 0x100_0000
    ensures forall i :: 0 <= i < |g| ==> Octets(Bits(g))[i] == g[i]
  {
    var a, b, c := ByteAt(g, 0), ByteAt(g, 1), ByteAt(g, 2);
    assert Bits(g) == (a * 0x100 + b) * 0x100 + c;
    LastOctet(a * 0x100 + b, c);
    LastOctet(a, b);
  }

  lemma NumberOfFour(alphabet: Alphabet, q: bytes)
    requires |q| == 4
    ensures Number(alphabet, q)
            == ((ValueOr0(alphabet, q[0]) * 64 + ValueOr0(alphabet, q[1])) * 64 + ValueOr0(alphabet, q[2])) * 64
               + ValueOr0(alphabet, q[3])
  {
    hide ValueOr0;
    assert q[..3][..2] == q[..2] && q[..2][..1] == q[..1] && q[..1][..0] == [];
    assert Number(alphabet, q[..1]) == ValueOr0(alphabet, q[0]);
    assert Number(alphabet, q[..2]) == Number(alphabet, q[..1]) * 64 + ValueOr0(alphabet, q[1]);
    assert Number(alphabet, q[..3]) == Number(alphabet, q[..2]) * 64 + ValueOr0(alphabet, q[2]);
  }

  /** A number below 2 to the 24 is its four digits. */
  lemma NumberOfDigits(n: nat)
    requires n < 0x100_0000
    ensures
      var d := Digits(n);
      && ((d[0] * 64 + d[1]) * 64 + d[2]) * 64 + d[3] == n
      && d[0] < 64 && d[1] < 64 && d[2] < 64 && d[3] < 64
  {
    assert n / 64 / 64 / 64 < 64;
  }

  /** Trailing zero bytes of a group have zero digits behind the ones that are written. */
  lemma UnwrittenDigits(g: bytes)
    requires 0 < |g| <= 3
    ensures |g| < 3 ==> Digits(Bits(g))[3] == 0
    ensures |g| < 2 ==> Digits(Bits(g))[2] == 0
  {
    DigitsOfBytes(ByteAt(g, 0), ByteAt(g, 1), ByteAt(g, 2));
  }

  lemma GroupBack(alphabet: Alphabet, g: bytes)
    requires 0 < |g| <= 3
    ensures
      var q := EncodeGroup(alphabet, g);
      && DecodeGroup(alphabet, q) == g && Pads(q) == 3 - |g|
      && (forall i :: 0 <= i < 4 ==> Readable(alphabet, q[i]) && (i <= |g| <==> q[i] != PAD))
  {
    var q, d := EncodeGroup(alphabet, g), Digits(Bits(g));
    OctetsOfBits(g);
    NumberOfDigits(Bits(g));
    UnwrittenDigits(g);
    TablesAreInverse(alphabet, d[0]);
    TablesAreInverse(alphabet, d[1]);
    TablesAreInverse(alphabet, d[2]);
    TablesAreInverse(alphabet, d[3]);
    hide Symbol, Digits, Octets, Bits, Value;
    PadsOfFour(q);
    NumberOfFour(alphabet, q);
  }

  lemma WellFormedCons(alphabet: Alphabet, q: bytes, rest: bytes)
    requires |q| == 4 && WellFormed(alphabet, rest)
    requires forall i :: 0 <= i < 4 ==> Readable(alphabet, q[i]) && q[i] != PAD
    ensures WellFormed(alphabet, q + rest)
  {
  }

  /** Decoding an encoded text gives back the data, for every non-empty data. */
  lemma {:induction false} RoundTrip(alphabet: Alphabet, data: bytes)
    requires data != []
    ensures WellFormed(alphabet, Encoded(alphabet, data)) && Decoded(alphabet, Encoded(alphabet, data)) == data
  {
    hide EncodeGroup, DecodeGroup, Readable;
    var text := Encoded(alphabet, data);
    if |data| <= 3 {
      assert |data| == 3 ==> data[..3] == data && data[3..] == [];
      GroupBack(alphabet, data);
      assert text == EncodeGroup(alphabet, data) + [];
      assert text[..4] == text && text[4..] == [];
    } else {
      var q, rest := EncodeGroup(alphabet, data[..3]), Encoded(alphabet, data[3..]);
      GroupBack(alphabet, data[..3]);
      RoundTrip(alphabet, data[3..]);
      WellFormedCons(alphabet, q, rest);
      assert text[..4] == q && text[4..] == rest;
      assert data == data[..3] + data[3..];
    }
  }

  /** The text with the unused trailing bits of its last quantum set to zero (section 3.5 of RFC 4648). */
  function Canonical(alphabet: Alphabet, s: bytes): bytes
    requires WellFormed(alphabet, s)
  {
    if s[|s| - 1] != PAD then s
    else if s[|s| - 2] != PAD then
      SymbolOfValue(alphabet, s[|s| - 2]);
      s[|s| - 2 := Symbol(alphabet, Value(alphabet, s[|s| - 2]).value / 4 * 4)]
    else
      SymbolOfValue(alphabet, s[|s| - 3]);
      s[|s| - 3 := Symbol(alphabet, Value(alphabet, s[|s| - 3]).value / 16 * 16)]
  }

  /** What decoding a quantum keeps of its number: whole bytes. */
  lemma BitsOfOctets(n: nat, k: nat)
    requires n < 0x100_0000 && 1 <= k <= 3
    ensures k == 3 ==> Bits(Octets(n)[..k]) == n
    ensures k == 2 ==> Bits(Octets(n)[..k]) == n / 0x100 * 0x100
    ensures k == 1 ==> Bits(Octets(n)[..k]) == n / 0x100 / 0x100 * 0x1_0000
  {
    assert n / 0x100 / 0x100 < 0x100;
    assert forall i :: 0 <= i < k ==> Octets(n)[..k][i] == Octets(n)[i];
  }

  lemma OneByteCut(d: nat, e: nat, f: nat)
    requires d < 64 && e < 64 && f < 64
    ensures ((d * 64 + e) * 64 + f) * 64 / 0x100 * 0x100 == ((d * 64 + e) * 64 + f / 4 * 4) * 64
  {
    assert ((d * 64 + e) * 64 + f) * 64 == ((d * 64 + e) * 16 + f / 4) * 0x100 + f % 4 * 64;
  }

  lemma TwoBytesCut(d: nat, e: nat)
    requires d < 64 && e < 64
    ensures (d * 64 + e) * 0x1000 / 0x100 / 0x100 * 0x1_0000 == (d * 64 + e / 16 * 16) * 0x1000
  {
    assert (d * 64 + e) * 0x1000 / 0x100 == (d * 4 + e / 16) * 0x100 + e % 16 * 16;
  }

  /** The digits that are left when only the first `k` bytes of a number are kept. */
  lemma KeptDigits(d: nat, e: nat, f: nat, g: nat, k: nat)
    requires d < 64 && e < 64 && f < 64 && g < 64 && 1 <= k <= 3
    requires (k < 3 ==> g == 0) && (k < 2 ==> f == 0)
    ensures Digits(Bits(Octets(((d * 64 + e) * 64 + f) * 64 + g)[..k]))
            == [d, if k == 1 then e / 16 * 16 else e, if k == 2 then f / 4 * 4 else f, g]
  {
    hide Digits, Octets, Bits;
    var n := ((d * 64 + e) * 64 + f) * 64 + g;
    assert n < 0x100_0000;
    BitsOfOctets(n, k);
    if k == 3 {
      DigitsOfNumber(d, e, f, g);
    } else if k == 2 {
      OneByteCut(d, e, f);
      DigitsOfNumber(d, e, f / 4 * 4, 0);
    } else {
      TwoBytesCut(d, e);
      assert n == (d * 64 + e) * 0x1000
             && ((d * 64 + e / 16 * 16) * 64 + 0) * 64 + 0 == (d * 64 + e / 16 * 16) * 0x1000;
      DigitsOfNumber(d, e / 16 * 16, 0, 0);
    }
  }

  /** Re-encoding a decoded quantum restores it up to its unused bits. */
  lemma GroupForth(alphabet: Alphabet, q: bytes)
    requires |q| == 4 && WellFormed(alphabet, q)
    ensures 0 < |DecodeGroup(alphabet, q)| <= 3 && (Pads(q) == 0 <==> |DecodeGroup(alphabet, q)| == 3)
    ensures EncodeGroup(alphabet, DecodeGroup(alphabet, q)) == Canonical(alphabet, q)
  {
    hide Value, Symbol, Digits, Octets, Bits, Number, Pads;
    PadsOfFour(q);
    NumberOfFour(alphabet, q);
    ValueIsSmall(alphabet, q[0]);
    ValueIsSmall(alphabet, q[1]);
    ValueIsSmall(alphabet, q[2]);
    ValueIsSmall(alphabet, q[3]);
    KeptDigits(ValueOr0(alphabet, q[0]), ValueOr0(alphabet, q[1]), ValueOr0(alphabet, q[2]), ValueOr0(alphabet, q[3]),
               3 - Pads(q));
  }

  lemma ValueIsSmall(alphabet: Alphabet, c: byte)
    requires Readable(alphabet, c)
    ensures ValueOr0(alphabet, c) < 64
    ensures c != PAD ==> Value(alphabet, c).Some? && ValueOr0(alphabet, c) == Value(alphabet, c).value
                         && Symbol(alphabet, ValueOr0(alphabet, c)) == c
  {
    if c != PAD {
      SymbolOfValue(alphabet, c);
    }
  }

  lemma CanonicalCons(alphabet: Alphabet, q: bytes, rest: bytes)
    requires |q| == 4 && WellFormed(alphabet, rest) && WellFormed(alphabet, q + rest)
    ensures Canonical(alphabet, q + rest) == q + Canonical(alphabet, rest)
  {
  }

  /** Re-encoding what was decoded gives the text back with its unused bits cleared, for every well-formed text. */
  lemma {:induction false} Reencoded(alphabet: Alphabet, s: bytes)
    requires WellFormed(alphabet, s)
    ensures Decoded(alphabet, s) != []
    ensures Encoded(alphabet, Decoded(alphabet, s)) == Canonical(alphabet, s)
  {
    hide EncodeGroup, DecodeGroup, Readable, Canonical;
    if |s| == 4 {
      assert s[..4] == s && s[4..] == [];
      GroupForth(alphabet, s);
      var g := DecodeGroup(alphabet, s);
      assert Decoded(alphabet, s) == g + [] == g;
      assert |g| == 3 ==> g[..3] == g && g[3..] == [];
    } else {
      var q, rest := s[..4], s[4..];
      assert s == q + rest;
      Reencoded(alphabet, rest);
      WholeQuantum(alphabet, q);
      CanonicalCons(alphabet, q, rest);
      var g, more := DecodeGroup(alphabet, q), Decoded(alphabet, rest);
      assert (g + more)[..3] == g && (g + more)[3..] == more;
    }
  }

  lemma WholeQuantum(alphabet: Alphabet, q: bytes)
    requires |q| == 4 && forall i :: 0 <= i < 4 ==> Readable(alphabet, q[i]) && q[i] != PAD
    ensures |DecodeGroup(alphabet, q)| == 3 && EncodeGroup(alphabet, DecodeGroup(alphabet, q)) == q
  {
    GroupForth(alphabet, q);
    PadsOfFour(q);
  }

  /** A text survives decoding and re-encoding exactly if its unused bits are zero. */
  lemma ReencodedExactly(alphabet: Alphabet, s: bytes)
    requires WellFormed(alphabet, s)
    ensures Encoded(alphabet, Decoded(alphabet, s)) == s <==>
            if s[|s| - 1] != PAD then true
            else if s[|s| - 2] != PAD then ValueOr0(alphabet, s[|s| - 2]) % 4 == 0
            else ValueOr0(alphabet, s[|s| - 3]) % 16 == 0
  {
    Reencoded(alphabet, s);
    hide Symbol, Value;
    if s[|s| - 1] == PAD {
      var k := if s[|s| - 2] != PAD then |s| - 2 else |s| - 3;
      ValueIsSmall(alphabet, s[k]);
      var v := ValueOr0(alphabet, s[k]);
      TablesAreInverse(alphabet, v);
      TablesAreInverse(alphabet, if s[|s| - 2] != PAD then v / 4 * 4 else v / 16 * 16);
    }
  }
}
