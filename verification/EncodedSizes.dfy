/** The byte counts of truncation are those of the encoding. */
module EncodedSizes {
  import AssignmentRedaction
  import Resp

  lemma Utf8LengthIsEncoded(c: char)
    ensures AssignmentRedaction.Utf8Length(c) == |Resp.Encode(c as int)|
  {
  }

  function Scalars(s: string): seq<Resp.Scalar> {
    seq(|s|, i requires 0 <= i < |s| => s[i] as int)
  }

  /** The bytes counted for a text are exactly those it is encoded in. */
  lemma {:induction false} BytesAreEncoded(s: string)
    ensures AssignmentRedaction.Bytes(s) == |Resp.EncodeAll(Scalars(s))|
  {
    if s != "" {
      BytesAreEncoded(s[1..]);
      Utf8LengthIsEncoded(s[0]);
      assert Scalars(s)[1..] == Scalars(s[1..]);
    }
  }
}
