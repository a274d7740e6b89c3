/**
  The save directory as the save and load code see it. zlib compression and
  the file helpers are foreign code: a file holds the archive bytes that it
  decompresses to, or is `Corrupt` when it cannot be read or decompressed.
*/
module Files {
  import opened ByteFields

  datatype FileContent = Stored(bytes: seq<byte>) | Corrupt

  type FileStore = map<string, FileContent>
}
