/** String arrays, and the three-part token put together with them. */
module Token {
  import opened Codes
  import opened Base64
  import opened Hmac

  const DEFAULT_INCREMENT_VALUE: nat := 5
  const DOT: byte := 46

  /** The strings one behind the other. */
  function Concat(strings: seq<bytes>): bytes {
    if strings == [] then [] else Concat(strings[..|strings| - 1]) + strings[|strings| - 1]
  }

  lemma ConcatSnoc(strings: seq<bytes>, s: bytes)
    ensures Concat(strings + [s]) == Concat(strings) + s
  {
    assert (strings + [s])[..|strings|] == strings;
  }

  lemma {:induction false} ConcatPrefix(strings: seq<bytes>, n: nat)
    requires n <= |strings|
    ensures |Concat(strings[..n])| <= |Concat(strings)|
    decreases |strings| - n
  {
    if n < |strings| {
      ConcatPrefix(strings, n + 1);
      assert strings[..n + 1] == strings[..n] + [strings[n]];
      ConcatSnoc(strings[..n], strings[n]);
    } else {
      assert strings[..n] == strings;
    }
  }

  /** A growing array of strings that keeps their total length. */
  class StringArray {
    var items: array<bytes>
    var index: nat
    var count: nat
    var totalLength: nat
    var increment: nat

    ghost predicate Valid()
      reads this, items
    {
      index <= count == items.Length && totalLength == |Concat(items[..index])|
    }

    ghost function Contents(): seq<bytes>
      requires Valid()
      reads this, items
    {
      items[..index]
    }

    constructor (count: nat)
      requires count > 0
      ensures Valid() && fresh(items) && Contents() == [] && this.count == count && increment == 5
    {
      items := new bytes[count](i => []);
      index, totalLength, increment := 0, 0, DEFAULT_INCREMENT_VALUE;
      this.count := count;
    }

    /** Appends a string; a full array grows by the increment, or by the default if that is zero. */
    method Add(s: bytes)
      requires Valid()
      modifies this, items
      ensures Valid() && (items == old(items) || fresh(items))
      ensures Contents() == old(Contents()) + [s]
      ensures old(index) < old(count) ==> items == old(items) && count == old(count) && increment == old(increment)
      ensures old(index) == old(count) ==>
                && fresh(items) && count == old(count) + increment
                && increment == (if old(increment) == 0 then 5 else old(increment))
    {
      ConcatSnoc(items[..index], s);
      if index >= count {
        Grow();
      }
      items[index] := s;
      index := index + 1;
      totalLength := totalLength + |s|;
      assert items[..index] == old(items[..index]) + [s];
    }

    method Grow()
      requires Valid()
      modifies this`items, this`count, this`increment
      ensures Valid() && fresh(items) && Contents() == old(Contents()) && index < count
      ensures count == old(count) + increment && increment == if old(increment) == 0 then 5 else old(increment)
    {
      if increment == 0 {
        increment := DEFAULT_INCREMENT_VALUE;
      }
      var was := items;
      var bigger := new bytes[count + increment](i => []);
      forall i | 0 <= i < count {
        bigger[i] := was[i];
      }
      items := bigger;
      count := count + increment;
      assert items[..index] == old(items[..index]);
    }

    /** All strings behind one another; an array of empty strings gives NULL. */
    method ToString() returns (r: Option<bytes>)
      requires Valid() && forall i :: 0 <= i < index ==> NoNul(items[i])
      ensures r == if Concat(Contents()) == [] then None else Some(Concat(Contents()))
    {
      if totalLength == 0 {
        return None;
      }
      var buffer := new byte[totalLength + 1];
      buffer[0] := 0;
      var end, i := 0, 0;
      while i < index
        invariant 0 <= i <= index && 0 <= end < buffer.Length
        invariant buffer[..end] == Concat(items[..i]) && buffer[end] == 0
      {
        assert items[..i + 1] == items[..i] + [items[i]];
        ConcatSnoc(items[..i], items[i]);
        ConcatPrefix(items[..index], i + 1);
        assert items[..index][..i + 1] == items[..i + 1];
        Append(buffer, end, items[i]);
        end := end + |items[i]|;
        i := i + 1;
      }
      return Some(buffer[..end]);
    }
  }

  /** Copies a string to the terminator at `end` and terminates it again. */
  method Append(buffer: array<byte>, end: nat, s: bytes)
    requires end + |s| < buffer.Length && buffer[end] == 0
    modifies buffer
    ensures buffer[..end + |s|] == old(buffer[..end]) + s && buffer[end + |s|] == 0
  {
    forall i | 0 <= i < |s| {
      buffer[end + i] := s[i];
    }
    buffer[end + |s|] := 0;
  }

  method JoinWithDot(a: bytes, b: bytes) returns (joined: bytes)
    requires NoNul(a) && NoNul(b)
    ensures joined == a + [46] + b
  {
    var strings := new StringArray(3);
    strings.Add(a);
    strings.Add([DOT]);
    strings.Add(b);
    assert strings.Contents() == [] + [a] + [[DOT]] + [b];
    ConcatSnoc([], a);
    ConcatSnoc([] + [a], [DOT]);
    ConcatSnoc([] + [a] + [[DOT]], b);
    assert strings.items[0] == strings.Contents()[0] && strings.items[1] == strings.Contents()[1]
           && strings.items[2] == strings.Contents()[2];
    var r := strings.ToString();
    joined := r.value;
  }

  // ---------- the token ----------

  function TokenOf(header: bytes, payload: bytes, signature: bytes): bytes {
    (Encoded(Url, header) + [DOT] + Encoded(Url, payload)) + [DOT] + Encoded(Url, signature)
  }

  /** The text in front of the signature, which is what gets signed. */
  function Signed(header: bytes, payload: bytes): bytes {
    Encoded(Url, header) + [DOT] + Encoded(Url, payload)
  }

  /** The encodings of header, payload and signature, joined by full stops, the character 46. */
  lemma TokenIsLiteral(header: bytes, payload: bytes, signature: bytes)
    ensures TokenOf(header, payload, signature)
            == Encoded(Url, header) + [46] + Encoded(Url, payload) + [46] + Encoded(Url, signature)
    ensures Signed(header, payload) == Encoded(Url, header) + [46] + Encoded(Url, payload)
  {
  }

  predicate NoDot(s: bytes) {
    forall i :: 0 <= i < |s| ==> s[i] != DOT
  }

  lemma EncodedCharacters(data: bytes)
    ensures NoNul(Encoded(Url, data)) && NoDot(Encoded(Url, data))
  {
    if data != [] {
      RoundTrip(Url, data);
      var s := Encoded(Url, data);
      forall i | 0 <= i < |s| ensures s[i] != 0 && s[i] != DOT {
        assert Readable(Url, s[i]);
      }
    }
  }

  /** Encodes header and payload, signs what they give when joined, and joins the encoded signature to it. */
  method GenerateToken(sign: bytes -> Result<bytes>, header: bytes, payload: bytes) returns (token: Result<bytes>)
    ensures token == if sign(Signed(header, payload)).Failure? then Failure(Fail)
                     else Success(TokenOf(header, payload, sign(Signed(header, payload)).value))
    ensures token.Success? ==>
              && sign(Encoded(Url, header) + [46] + Encoded(Url, payload)).Success?
              && token.value == Encoded(Url, header) + [46] + Encoded(Url, payload) + [46]
                                + Encoded(Url, sign(Encoded(Url, header) + [46] + Encoded(Url, payload)).value)
  {
    var headerEncoded := Encode(Url, header);
    var payloadEncoded := Encode(Url, payload);
    EncodedCharacters(header);
    EncodedCharacters(payload);
    var headerAndPayload := JoinWithDot(headerEncoded, payloadEncoded);
    var signature := sign(headerAndPayload);
    if signature.Failure? {
      return Failure(Fail);
    }
    var signatureEncoded := Encode(Url, signature.value);
    EncodedCharacters(signature.value);
    var joined := JoinWithDot(headerAndPayload, signatureEncoded);
    return Success(joined);
  }

  // ---------- taking it apart ----------

  /** The pieces of a text between its dots. */
  function SplitDots(s: bytes): (pieces: seq<bytes>)
    ensures |pieces| > 0
  {
    if s == [] then [[]]
    else
      var rest := SplitDots(s[1..]);
      if s[0] == DOT then [[]] + rest else [[s[0]] + rest[0]] + rest[1..]
  }

  lemma {:induction false} SplitFirst(a: bytes, b: bytes)
    requires NoDot(a)
    ensures SplitDots(a + [DOT] + b) == [a] + SplitDots(b)
  {
    if a == [] {
      assert (a + [DOT] + b)[1..] == b;
    } else {
      assert (a + [DOT] + b)[1..] == a[1..] + [DOT] + b;
      SplitFirst(a[1..], b);
      assert [a[0]] + a[1..] == a;
    }
  }

  lemma {:induction false} SplitNone(a: bytes)
    requires NoDot(a)
    ensures SplitDots(a) == [a]
  {
    if a != [] {
      SplitNone(a[1..]);
      assert [a[0]] + a[1..] == a;
    }
  }

  lemma Regroup(h: bytes, p: bytes, s: bytes, dot: bytes)
    ensures (h + dot + p) + dot + s == h + dot + (p + dot + s)
  {
  }

  lemma SplitThree(h: bytes, p: bytes, s: bytes)
    requires NoDot(h) && NoDot(p) && NoDot(s)
    ensures SplitDots((h + [DOT] + p) + [DOT] + s) == [h, p, s]
  {
    Regroup(h, p, s, [DOT]);
    hide SplitDots;
    SplitFirst(h, p + [DOT] + s);
    SplitFirst(p, s);
    SplitNone(s);
  }

  lemma TokenParts(header: bytes, payload: bytes, signature: bytes)
    ensures SplitDots(TokenOf(header, payload, signature))
            == [Encoded(Url, header), Encoded(Url, payload), Encoded(Url, signature)]
  {
    EncodedCharacters(header);
    EncodedCharacters(payload);
    EncodedCharacters(signature);
    SplitThree(Encoded(Url, header), Encoded(Url, payload), Encoded(Url, signature));
  }

  /**
   A token always has exactly three parts, the encodings of header, payload and signature. Each part decodes,
   and then to what was put in, exactly if that was not empty.
   */
  lemma TokenComesApart(header: bytes, payload: bytes, signature: bytes)
    ensures
      var parts := SplitDots(TokenOf(header, payload, signature));
      && |parts| == 3
      && (WellFormed(Url, parts[0]) <==> header != []) && (header != [] ==> Decoded(Url, parts[0]) == header)
      && (WellFormed(Url, parts[1]) <==> payload != []) && (payload != [] ==> Decoded(Url, parts[1]) == payload)
      && (WellFormed(Url, parts[2]) <==> signature != []) && (signature != [] ==> Decoded(Url, parts[2]) == signature)
  {
    TokenParts(header, payload, signature);
    PartComesBack(header);
    PartComesBack(payload);
    PartComesBack(signature);
  }

  lemma PartComesBack(data: bytes)
    ensures WellFormed(Url, Encoded(Url, data)) <==> data != []
    ensures data != [] ==> Decoded(Url, Encoded(Url, data)) == data
  {
    if data != [] {
      RoundTrip(Url, data);
    }
  }

  /**
   With the shared secret profile the third part is the MAC of everything in front of the second dot, so that
   whoever knows the secret can check it.
   */
  lemma SignatureIsMac(sha: Sha, secret: bytes, header: bytes, payload: bytes)
    requires Mac(sha, secret, Signed(header, payload)).Success?
    ensures
      var token := TokenOf(header, payload, Mac(sha, secret, Signed(header, payload)).value);
      var parts := SplitDots(token);
      |parts| == 3 && WellFormed(Url, parts[2])
      && Mac(sha, secret, parts[0] + [46] + parts[1]) == Success(Decoded(Url, parts[2]))
  {
    var signature := Mac(sha, secret, Signed(header, payload)).value;
    TokenParts(header, payload, signature);
    PartComesBack(signature);
  }
}
