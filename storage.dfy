/**
 * The filesystem facade the transfer engine calls (FileSystemManager), as
 * pure functions over a store mapping each path to its bytes.  The CRC32
 * checksum is an uninterpreted function supplied by the caller.
 */
module Storage {
  import opened Ints

  type Path = string
  type Store = map<Path, seq<Byte>>

  function Zeros(n: nat): (z: seq<Byte>)
    ensures |z| == n
  {
    seq(n, _ => 0)
  }

  /** `getFileName`: the part of the path after its last '/'. */
  function FileName(path: Path): (name: string)
    ensures |name| <= |path| && name == path[|path| - |name|..]
    ensures forall i :: 0 <= i < |name| ==> name[i] != '/'
    ensures |name| < |path| ==> path[|path| - |name| - 1] == '/'
  {
    if path == [] then []
    else if path[|path| - 1] == '/' then []
    else FileName(path[..|path| - 1]) + [path[|path| - 1]]
  }

  /** `calculateFileHash`: the decimal text of the file's 32-bit checksum, or "" for a missing file. */
  function FileHash(store: Store, path: Path, checksum: seq<Byte> -> nat): (h: string)
    ensures path !in store <==> h == ""
    ensures forall i :: 0 <= i < |h| ==> IsDigit(h[i])
  {
    if path in store then DecimalString(checksum(store[path]) % UINT32_LIMIT) else ""
  }

  /** A hash is empty exactly for a missing file, and otherwise all decimal digits, naming the checksum uniquely. */
  lemma FileHashDigits(store: Store, path: Path, checksum: seq<Byte> -> nat)
    ensures path !in store <==> FileHash(store, path, checksum) == ""
    ensures forall i :: 0 <= i < |FileHash(store, path, checksum)| ==> IsDigit(FileHash(store, path, checksum)[i])
    ensures path in store ==> DecimalValue(FileHash(store, path, checksum)) == checksum(store[path]) % UINT32_LIMIT
  {
    if path in store {
      DecimalRoundTrip(checksum(store[path]) % UINT32_LIMIT);
    }
  }

  /**
   * `readChunk`: up to `size` bytes from `offset`; fewer at the end of the
   * file, none for a missing file or an offset past the end.
   */
  function ReadChunk(store: Store, path: Path, offset: nat, size: nat): (r: seq<Byte>)
    ensures |r| <= size
    ensures (path !in store || |store[path]| < offset) ==> r == []
    ensures path in store && offset <= |store[path]| ==>
              && |r| == (if offset + size <= |store[path]| then size else |store[path]| - offset)
              && r == store[path][offset..offset + |r|]
  {
    if path !in store || |store[path]| < offset then []
    else if offset + size <= |store[path]| then store[path][offset..offset + size]
    else store[path][offset..]
  }

  /** The bytes of a file after writing `data` at `offset`; a gap past the old end reads as zeros. */
  function Overwrite(b: seq<Byte>, offset: nat, data: seq<Byte>): (r: seq<Byte>)
    ensures |r| == if offset + |data| <= |b| then |b| else offset + |data|
  {
    var prefix := if offset <= |b| then b[..offset] else b + Zeros(offset - |b|);
    var suffix := if offset + |data| < |b| then b[offset + |data|..] else [];
    prefix + data + suffix
  }

  lemma OverwriteSpec(b: seq<Byte>, offset: nat, data: seq<Byte>)
    ensures var r := Overwrite(b, offset, data);
            && |r| == (if offset + |data| <= |b| then |b| else offset + |data|)
            && r[offset..offset + |data|] == data
            && (forall i :: 0 <= i < offset && i < |b| ==> r[i] == b[i])
            && (forall i :: |b| <= i < offset ==> r[i] == 0)
            && (forall i :: offset + |data| <= i < |b| ==> r[i] == b[i])
  {
    var prefix := if offset <= |b| then b[..offset] else b + Zeros(offset - |b|);
    var suffix := if offset + |data| < |b| then b[offset + |data|..] else [];
    assert (prefix + data + suffix)[offset..offset + |data|] == data;
  }

  /** `writeChunk`: an existing file is overwritten at `offset`; a missing one cannot be opened and nothing happens. */
  function WriteChunk(store: Store, path: Path, offset: nat, data: seq<Byte>): (r: Store)
    ensures r.Keys == store.Keys
  {
    if path in store then store[path := Overwrite(store[path], offset, data)] else store
  }

  lemma WriteChunkSpec(store: Store, path: Path, offset: nat, data: seq<Byte>)
    ensures forall p :: p in store && p != path ==> WriteChunk(store, path, offset, data)[p] == store[p]
    ensures path in store ==> WriteChunk(store, path, offset, data)[path] == Overwrite(store[path], offset, data)
    ensures path !in store ==> WriteChunk(store, path, offset, data) == store
  {
  }

  /** `createFile`: a file of `size` zero bytes, replacing any file at that path; other files are kept. */
  function CreateFile(store: Store, path: Path, size: nat): (r: Store)
    ensures r.Keys == store.Keys + {path}
    ensures |r[path]| == size && forall i :: 0 <= i < size ==> r[path][i] == 0
    ensures forall p :: p in store && p != path ==> r[p] == store[p]
  {
    store[path := Zeros(size)]
  }

  /** Reading back the range just written returns the bytes written. */
  lemma ReadAfterWrite(store: Store, path: Path, offset: nat, data: seq<Byte>)
    requires path in store
    ensures ReadChunk(WriteChunk(store, path, offset, data), path, offset, |data|) == data
  {
    OverwriteSpec(store[path], offset, data);
  }

  /**
   * Writing the next slice of a source file into a destination that holds
   * the slices before it (and zeros after) extends the copied prefix by
   * that slice: the receiver's writes rebuild the sender's file chunk by
   * chunk.
   */
  lemma WriteNextSlice(src: seq<Byte>, k: nat, n: nat)
    requires k + n <= |src|
    ensures Overwrite(src[..k] + Zeros(|src| - k), k, src[k..k + n]) == src[..k + n] + Zeros(|src| - k - n)
  {
    var b := src[..k] + Zeros(|src| - k);
    var r := Overwrite(b, k, src[k..k + n]);
    OverwriteSpec(b, k, src[k..k + n]);
    var e := src[..k + n] + Zeros(|src| - k - n);
    assert |r| == |e|;
    forall i | 0 <= i < |r| ensures r[i] == e[i] {
      if i < k {
        assert r[i] == b[i];
      } else if i < k + n {
        assert r[i] == r[k..k + n][i - k];
      } else {
        assert r[i] == b[i];
      }
    }
  }

  /**
   * Reading a file as consecutive chunks and writing each one at its offset
   * into a zero-filled file of the same size reproduces the file, whatever
   * the chunk sizes.
   */
  lemma {:induction false} ChunkedCopy(store: Store, path: Path, k: nat, sizes: seq<nat>)
    requires path in store && k <= |store[path]|
    requires k + SumSizes(sizes) == |store[path]|
    ensures CopyChunks(store, path, k, sizes, store[path][..k] + Zeros(|store[path]| - k)) == store[path]
    decreases |sizes|
  {
    var src := store[path];
    if sizes == [] {
      assert src[..k] + Zeros(|src| - k) == src;
    } else {
      var n := sizes[0];
      assert SumSizes(sizes) == n + SumSizes(sizes[1..]);
      WriteNextSlice(src, k, n);
      ChunkedCopy(store, path, k + n, sizes[1..]);
    }
  }

  function SumSizes(sizes: seq<nat>): nat
  {
    if sizes == [] then 0 else sizes[0] + SumSizes(sizes[1..])
  }

  /** The destination after each chunk read from the file at the running offset is written at that offset. */
  function CopyChunks(store: Store, path: Path, k: nat, sizes: seq<nat>, dst: seq<Byte>): seq<Byte>
    decreases |sizes|
  {
    if sizes == [] then dst
    else
      var chunk := ReadChunk(store, path, k, sizes[0]);
      CopyChunks(store, path, k + sizes[0], sizes[1..], Overwrite(dst, k, chunk))
  }
}
