/** The two byte containers the codecs work on: a read cursor over an
    immutable byte string (Python's `io.BytesIO`) and a growable output
    buffer (Python's `bytearray`). */
module ByteIO {
  import opened Common

  /** The bytes `read(n)` returns at cursor `pos`: at most `n`, fewer
      when the data ends first. */
  function ReadAt(data: seq<byte>, pos: nat, n: nat): (chunk: seq<byte>)
    requires pos <= |data|
    ensures |chunk| == Min(n, |data| - pos)
    ensures chunk == data[pos..pos + |chunk|]
  {
    data[pos..Min(pos + n, |data|)]
  }

  class ByteStream {
    const data: seq<byte>
    var pos: nat

    ghost predicate Valid()
      reads this
    {
      pos <= |data|
    }

    constructor (data: seq<byte>)
      ensures Valid() && this.data == data && pos == 0
    {
      this.data := data;
      pos := 0;
    }

    /** `read(n)`: advances the cursor past the bytes it returns. */
    method Read(n: nat) returns (chunk: seq<byte>)
      requires Valid()
      modifies this`pos
      ensures Valid()
      ensures chunk == ReadAt(data, old(pos), n)
      ensures pos == old(pos) + |chunk|
    {
      chunk := data[pos..Min(pos + n, |data|)];
      pos := pos + |chunk|;
    }
  }

  class ByteBuffer {
    var bytes: seq<byte>

    constructor ()
      ensures bytes == []
    {
      bytes := [];
    }

    /** `append(x)`: a value outside 0..255 raises ValueError and leaves
        the buffer as it was. */
    method Append(x: int) returns (r: Outcome<Error>)
      modifies this
      ensures IsByte(x) ==> r == Pass && bytes == old(bytes) + [x]
      ensures !IsByte(x) ==> r == Fail(ValueError) && bytes == old(bytes)
    {
      if 0 <= x < 256 {
        bytes := bytes + [x];
        r := Pass;
      } else {
        r := Fail(ValueError);
      }
    }

    /** `extend(xs)`: every element must be a byte, otherwise ValueError is
        raised before anything is appended. */
    method Extend(xs: seq<int>) returns (r: Outcome<Error>)
      modifies this
      ensures (forall i :: 0 <= i < |xs| ==> IsByte(xs[i])) ==> r == Pass && bytes == old(bytes) + xs
      ensures !(forall i :: 0 <= i < |xs| ==> IsByte(xs[i])) ==> r == Fail(ValueError) && bytes == old(bytes)
    {
      if forall i :: 0 <= i < |xs| ==> 0 <= xs[i] < 256 {
        bytes := bytes + xs;
        r := Pass;
      } else {
        r := Fail(ValueError);
      }
    }
  }
}
