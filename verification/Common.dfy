/** Vocabulary shared by the models: bytes, digests, results, and the codec
    (hash function and JSON text) that every file protocol is parameterised by. */
module Common {

  newtype Byte = x: int | 0 <= x < 256

  type Bytes = seq<Byte>

  type Digest = string

  datatype Option<+T> = None | Some(value: T)

  datatype Result<+T, +E> = Ok(value: T) | Err(error: E)

  type Metadata = map<string, string>

  /** SHA-256 and JSON text are not part of the model: `hash` stands for the
      hex digest, `encode`/`decode` for the JSON text of a metadata object. */
  datatype Codec = Codec(
    hash: Bytes -> Digest,
    encode: Metadata -> Bytes,
    decode: Bytes -> Option<Metadata>)
  {
    ghost predicate RoundTrips() {
      forall m: Metadata :: decode(encode(m)) == Some(m)
    }

    ghost predicate CollisionFree() {
      forall a: Bytes, b: Bytes :: hash(a) == hash(b) ==> a == b
    }
  }
}
