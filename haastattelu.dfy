/** The interview rules (robostat/rulesets/haastattelu.py): a score is one
    yes/no judgement, written as a single byte. The class stands alone and
    does not extend the Ruleset base, so it has no validate of its own. */
module Haastattelu {
  import opened Common

  /** `create_score()`: a blank interview is "no". */
  function CreateScore(): (b: bool)
    ensures !b
  {
    false
  }

  /** `encode(score)`: one byte, 1 for yes and 0 for no. */
  function Encode(score: bool): (data: seq<byte>)
    ensures |data| == 1
    ensures data[0] == 0 || data[0] == 1
    ensures score <==> data[0] == 1
  {
    [if score then 1 else 0]
  }

  /** `decode(data)`: yes exactly when the first byte is nonzero; later
      bytes are ignored, and empty data raises IndexError. */
  function Decode(data: seq<byte>): (r: Result<bool, Error>)
    ensures r.Failure? <==> data == []
    ensures r.Failure? ==> r.error == IndexError
    ensures r.Success? ==> (r.value <==> data[0] != 0)
  {
    if data == [] then Failure(IndexError) else Success(data[0] != 0)
  }

  /** Encoding then decoding gives back the judgement, whatever bytes
      follow it. */
  lemma RoundTrip(score: bool, rest: seq<byte>)
    ensures Decode(Encode(score) + rest) == Success(score)
  {
  }

  /** Decoding depends on the first byte only. */
  lemma DecodeIgnoresTail(b: byte, rest1: seq<byte>, rest2: seq<byte>)
    ensures Decode([b] + rest1) == Decode([b] + rest2)
  {
  }

  /** Every byte other than 0 and 1 is accepted too, so re-encoding a
      decoded byte does not always give it back. */
  lemma ReencodeNormalises(b: byte)
    ensures Decode([b]).Success?
    ensures Encode(Decode([b]).value) == [if b == 0 then 0 else 1]
  {
  }
}
