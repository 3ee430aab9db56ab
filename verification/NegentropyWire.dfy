/**
 Byte buffers and the readers and writers of encoding.go, updating their cached timestamps in
 place, proved against the functions of `NegentropyCodec`.
 */
module NegentropyWire {
  import opened ByteStrings
  import opened NegentropyCodec

  datatype Result<+T> = Ok(value: T) | Err

  /** `bytes.Buffer`, written at the end. */
  class ByteBuffer {
    var data: seq<byte>

    constructor ()
      ensures data == []
    {
      data := [];
    }

    method Reset()
      modifies this
      ensures data == []
    {
      data := [];
    }

    method Write(bytes: seq<byte>)
      modifies this
      ensures data == old(data) + bytes
    {
      data := data + bytes;
    }
  }

  /** `bytes.Reader`. */
  class ByteReader {
    const data: seq<byte>
    var pos: nat

    constructor (data: seq<byte>)
      ensures this.data == data && pos == 0
    {
      this.data := data;
      pos := 0;
    }

    ghost predicate Valid()
      reads this
    {
      pos <= |data|
    }

    function Rest(): (rest: seq<byte>)
      requires Valid()
      reads this
    {
      data[pos..]
    }

    /** The state after a read that the specification describes by `parsed`. */
    ghost predicate Reads<T>(parsed: Parsed<T>, result: Result<T>)
      reads this
    {
      && Valid()
      && (parsed.Fail? <==> result.Err?)
      && (parsed.Got? ==> result == Ok(parsed.value) && Rest() == parsed.rest)
    }

    method ReadByte() returns (result: Result<byte>)
      requires Valid()
      modifies this
      ensures Valid()
      ensures result.Err? <==> old(Rest()) == []
      ensures result.Ok? ==> result.value == old(Rest())[0] && Rest() == old(Rest())[1..]
    {
      if pos == |data| {
        return Err;
      }
      result := Ok(data[pos]);
      pos := pos + 1;
    }

    method Read(n: nat) returns (result: Result<seq<byte>>)
      requires Valid()
      modifies this
      ensures Reads(ReadBytes(old(Rest()), n), result)
    {
      if pos == |data| {
        return Err;
      }
      var available := |data| - pos;
      if n <= available {
        result := Ok(data[pos..pos + n]);
        assert data[pos..][..n] == data[pos..pos + n];
        pos := pos + n;
      } else {
        result := Ok(data[pos..] + seq(n - available, i => 0));
        pos := |data|;
      }
    }
  }

  method ReadVarInt(reader: ByteReader) returns (result: Result<int>)
    requires reader.Valid()
    modifies reader
    ensures reader.Reads(ReadVar(old(reader.Rest())), result)
  {
    var res := 0;
    while true
      invariant reader.Valid()
      invariant ReadVarFrom(reader.Rest(), res) == ReadVar(old(reader.Rest()))
      decreases |reader.data| - reader.pos
    {
      var b := reader.ReadByte();
      if b.Err? {
        return Err;
      }
      res := Wrap64(res * 128 + b.value % 128);
      if b.value < 128 {
        return Ok(res);
      }
    }
  }

  function Groups(n: nat): nat {
    if n == 0 then 0 else 1 + Groups(n / 128)
  }

  /** Ten groups of seven bits hold any 64-bit value. */
  lemma {:induction false} GroupsFit(n: nat, k: nat, bound: nat)
    requires n < bound && bound == Pow128(k)
    ensures Groups(n) <= k
  {
    if n > 0 && k > 0 {
      GroupsFit(n / 128, k - 1, Pow128(k - 1));
    }
  }

  function Pow128(k: nat): nat {
    if k == 0 then 1 else 128 * Pow128(k - 1)
  }

  lemma {:induction false} TenGroups(n: nat)
    requires n < TWO_64
    ensures Groups(n) <= 10
  {
    assert Pow128(5) == 128 * 128 * 128 * 128 * 128;
    assert Pow128(10) == 128 * 128 * 128 * 128 * 128 * Pow128(5);
    GroupsFit(n, 10, Pow128(10));
  }

  /** The plain seven-bit groups of `n`, most significant first. */
  function Plain(n: nat): seq<byte> {
    if n == 0 then [] else Plain(n / 128) + [n % 128]
  }

  lemma {:induction false} PlainShape(n: nat)
    ensures |Plain(n)| == |Continued(n)| == Groups(n)
    ensures forall i :: 0 <= i < Groups(n) ==> Plain(n)[i] < 128 && Continued(n)[i] == 128 + Plain(n)[i]
  {
    if n > 0 {
      PlainShape(n / 128);
    }
  }

  /** Fills a ten-byte buffer from the back. */
  method FillGroups(n: nat) returns (result: seq<byte>)
    requires n < TWO_64
    ensures result == Plain(n)
  {
    var buf := new byte[10];
    var idx := 9;
    var m := n;
    TenGroups(n);
    while m != 0
      invariant -1 <= idx <= 9 && Groups(m) <= idx + 1
      invariant Plain(m) + buf[idx + 1..] == Plain(n)
    {
      ghost var before := buf[idx + 1..];
      buf[idx] := m % 128;
      assert buf[idx..] == [m % 128] + before;
      m := m / 128;
      idx := idx - 1;
    }
    result := buf[idx + 1..];
  }

  method WriteVarInt(w: ByteBuffer, n: nat)
    requires n < TWO_64
    modifies w
    ensures w.data == old(w.data) + VarInt(n)
  {
    if n == 0 {
      assert VarInt(0) == [0];
      w.Write([0]);
      return;
    }
    var result := FillGroups(n);
    PlainShape(n);
    var i := 0;
    // mark every byte but the last as continued
    while i < |result| - 1
      invariant 0 <= i <= |result| - 1 && |result| == Groups(n)
      invariant forall j :: 0 <= j < i ==> result[j] == 128 + Plain(n)[j]
      invariant forall j :: i <= j < |result| ==> result[j] == Plain(n)[j]
    {
      result := result[i := result[i] + 128];
      i := i + 1;
    }
    PlainShape(n / 128);
    assert result == VarInt(n);
    w.Write(result);
  }
}
