/** JSON documents as bytes: their text in UTF-8. */
module JsonBytes {
  import opened Prelude
  import opened Json
  import JsonRoundTrip
  import Utf8

  function ToBytes(v: Json): Bytes {
    Utf8.Encode(Print(v))
  }

  /** A strict reader: what `ToBytes` writes, and any other JSON text in UTF-8
      without repeated keys and numbers beyond the doubles. */
  function FromBytes(bs: Bytes): Option<Json> {
    match Utf8.Decode(bs)
    case None => None
    case Some(text) => Parse(text)
  }

  lemma FromBytesOfToBytes(v: Json)
    requires WF(v)
    ensures FromBytes(ToBytes(v)) == Some(v)
  {
    Utf8.DecodeOfEncode(Print(v));
    JsonRoundTrip.ParseOfPrint(v);
  }

  /** No other bytes have the same text. */
  lemma BytesOfText(v: Json, bs: Bytes)
    ensures Utf8.Decode(bs) == Some(Print(v)) <==> bs == ToBytes(v)
  {
    if Utf8.Decode(bs) == Some(Print(v)) {
      Utf8.EncodeOfDecode(bs);
    }
    Utf8.DecodeOfEncode(Print(v));
  }
}
