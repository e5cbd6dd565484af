/**
 * `TextExtractor.IsFileHeaderValid`: the first four bytes of the file must be
 * the zip local-file-header signature. The file stream is replaced by the
 * file's bytes and by the count the single `Read` call returns.
 */
module Signature {
  import opened Wrappers

  newtype byte = x: int | 0 <= x < 256

  /** The identifier for .docx files: "PK\x03\x04". */
  const Identifier: seq<byte> := [80, 75, 3, 4]

  /** The buffer the header is read into, as allocated: all zeros. */
  const ZeroHeader: seq<byte> := [0, 0, 0, 0]

  /** The file starts with the identifier. */
  predicate HasIdentifier(bytes: seq<byte>) {
    |bytes| >= |Identifier| && bytes[..|Identifier|] == Identifier
  }

  /** The header check for a file holding `bytes`, where `readCount` is what
      `Read(header, 0, 4)` returns when the file is long enough to be read.
      A file shorter than the identifier is not read, and the zero buffer is compared. */
  function IsFileHeaderValid(bytes: seq<byte>, readCount: nat): (r: Result<bool>)
    ensures r == Failure(EndOfStream) <==> |bytes| >= 4 && readCount != 4
    ensures r == Success(true) <==> HasIdentifier(bytes) && readCount == 4
    ensures r.Failure? ==> r.error == EndOfStream
    ensures |bytes| < 4 ==> r == Success(false)
  {
    if |bytes| >= |ZeroHeader| && readCount != |ZeroHeader| then Failure(EndOfStream)
    else
      var header := if |bytes| >= |ZeroHeader| then bytes[..|ZeroHeader|] else ZeroHeader;
      Success(header == Identifier)
  }

  /** Only the first four bytes matter: anything may follow the identifier. */
  lemma IdentifierThenAnything(rest: seq<byte>)
    ensures IsFileHeaderValid(Identifier + rest, 4) == Success(true)
  {
    assert (Identifier + rest)[..4] == Identifier;
  }

  /** A file whose first four bytes differ from the identifier anywhere is
      rejected, as long as its header could be read. */
  lemma {:induction false} WrongByteRejected(bytes: seq<byte>, i: nat)
    requires |bytes| >= 4 && i < 4 && bytes[i] != Identifier[i]
    ensures IsFileHeaderValid(bytes, 4) == Success(false)
  {
    assert bytes[..4][i] == bytes[i];
  }
}
