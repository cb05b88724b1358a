/**
 * The file-equality check: the MD5 digest of a file, fed to the hasher in
 * chunks of at most 4096 bytes, and the comparison of two such digests.
 *
 * The file system is a map from the paths of readable files to their
 * bytes. MD5 itself is a parameter `md5`: any function from the bytes fed
 * so far to a hex digest, since an MD5 object that was updated with
 * several chunks gives the digest of their concatenation.
 */
module Controller {
  import opened Wrappers

  newtype byte = x: int | 0 <= x < 256

  /** Readable files and their contents. */
  type FileSystem = map<string, seq<byte>>

  /** `open(path, 'rb')` fails: the file is missing or unreadable. */
  datatype IoError = IoError(path: string)

  const ChunkSize: nat := 4096

  /** `f.read(n)` on a file positioned at `pos`: the next at most `n` bytes. */
  function Read(content: seq<byte>, pos: nat, n: nat): (chunk: seq<byte>)
    requires pos <= |content|
    ensures |chunk| <= n && pos + |chunk| <= |content|
    ensures chunk == content[pos..pos + |chunk|]
    ensures n > 0 ==> (chunk == [] <==> pos == |content|)
  {
    if pos + n <= |content| then content[pos..pos + n] else content[pos..]
  }

  /**
   * The chunks the read loop obtains from offset `pos` on, up to and
   * including the empty read that ends it.
   */
  function ChunksFrom(content: seq<byte>, pos: nat): (r: seq<seq<byte>>)
    requires pos <= |content|
    ensures |r| > 0 && r[|r| - 1] == []
    decreases |content| - pos
  {
    var chunk := Read(content, pos, ChunkSize);
    if chunk == [] then [chunk] else [chunk] + ChunksFrom(content, pos + |chunk|)
  }

  /** The chunks read from a whole file. */
  function Chunks(content: seq<byte>): seq<seq<byte>>
  {
    ChunksFrom(content, 0)
  }

  /** The bytes of several chunks, one after the other. */
  function Concat(chunks: seq<seq<byte>>): seq<byte>
  {
    if chunks == [] then [] else Concat(chunks[..|chunks| - 1]) + chunks[|chunks| - 1]
  }

  lemma {:induction false} ConcatAppend(a: seq<seq<byte>>, b: seq<seq<byte>>)
    ensures Concat(a + b) == Concat(a) + Concat(b)
    decreases |b|
  {
    if b == [] {
      assert a + b == a;
    } else {
      var b' := b[..|b| - 1];
      assert (a + b)[..|a + b| - 1] == a + b';
      ConcatAppend(a, b');
    }
  }

  lemma ConcatSingle(c: seq<byte>)
    ensures Concat([c]) == c
  {
    assert [c][..0] == [];
  }

  lemma ConcatCons(c: seq<byte>, rest: seq<seq<byte>>)
    ensures Concat([c] + rest) == c + Concat(rest)
  {
    ConcatAppend([c], rest);
    ConcatSingle(c);
  }

  /** The chunks read from offset `pos` on put back together the rest of the file. */
  lemma {:induction false} ChunksFromConcat(content: seq<byte>, pos: nat)
    requires pos <= |content|
    ensures Concat(ChunksFrom(content, pos)) == content[pos..]
    decreases |content| - pos
  {
    var chunk := Read(content, pos, ChunkSize);
    if chunk == [] {
      ConcatSingle(chunk);
    } else {
      var rest := ChunksFrom(content, pos + |chunk|);
      ChunksFromConcat(content, pos + |chunk|);
      ConcatCons(chunk, rest);
      assert content[pos..] == chunk + content[pos + |chunk|..];
    }
  }

  /** Fed in order, the chunks are exactly the file's content. */
  lemma ChunksConcat(content: seq<byte>)
    ensures Concat(Chunks(content)) == content
  {
    ChunksFromConcat(content, 0);
  }

  /**
   * Every chunk holds at most 4096 bytes, the last chunk is the empty
   * read that stops the loop, and no earlier chunk is empty.
   */
  lemma {:induction false} ChunksFromShape(content: seq<byte>, pos: nat)
    requires pos <= |content|
    ensures var cs := ChunksFrom(content, pos);
      && |cs| > 0 && cs[|cs| - 1] == []
      && (forall k :: 0 <= k < |cs| ==> |cs[k]| <= ChunkSize)
      && (forall k :: 0 <= k < |cs| - 1 ==> cs[k] != [])
    decreases |content| - pos
  {
    var chunk := Read(content, pos, ChunkSize);
    if chunk != [] {
      ChunksFromShape(content, pos + |chunk|);
      var rest := ChunksFrom(content, pos + |chunk|);
      assert ChunksFrom(content, pos) == [chunk] + rest;
      assert forall k :: 1 <= k < |rest| + 1 ==> ([chunk] + rest)[k] == rest[k - 1];
    }
  }

  /** The trailing empty read fed to the hasher adds nothing to what it has seen. */
  lemma TrailingEmptyChunk(content: seq<byte>)
    ensures var cs := Chunks(content);
      |cs| > 0 && Concat(cs) == Concat(cs[..|cs| - 1])
  {
    ChunksFromShape(content, 0);
    var cs := Chunks(content);
    assert Concat(cs) == Concat(cs[..|cs| - 1]) + [];
  }

  /**
   * The state of the read loop at offset `pos`: the hasher has seen the
   * chunks `fed`, which are the bytes before `pos`, and the chunks still
   * to come complete the chunks of the file.
   */
  ghost predicate ReadSoFar(content: seq<byte>, pos: nat, fed: seq<seq<byte>>)
  {
    && pos <= |content|
    && Concat(fed) == content[..pos]
    && Chunks(content) == fed + ChunksFrom(content, pos)
  }

  /** One turn of the read loop keeps the hasher's input equal to the bytes read so far. */
  lemma ReadStep(content: seq<byte>, pos: nat, fed: seq<seq<byte>>)
    requires ReadSoFar(content, pos, fed)
    ensures var data := Read(content, pos, ChunkSize);
      && Concat(fed + [data]) == content[..pos + |data|]
      && (data == [] ==> Chunks(content) == fed + [data] && pos == |content|)
      && (data != [] ==> ReadSoFar(content, pos + |data|, fed + [data]))
  {
    var data := Read(content, pos, ChunkSize);
    ConcatAppend(fed, [data]);
    ConcatSingle(data);
    assert content[..pos + |data|] == content[..pos] + data;
    if data != [] {
      assert ChunksFrom(content, pos) == [data] + ChunksFrom(content, pos + |data|);
      ChunksRegroup(fed, [data], ChunksFrom(content, pos + |data|));
    }
  }

  /** Associativity of appending chunks: nothing new, stated once only to help the solver in `ReadStep`. */
  lemma ChunksRegroup(a: seq<seq<byte>>, b: seq<seq<byte>>, c: seq<seq<byte>>)
    ensures a + (b + c) == (a + b) + c
  {
  }

  /**
   * `get_md5(path)`: reads the file 4096 bytes at a time until a read
   * comes back empty, feeding every chunk (the empty one too) to the
   * hasher, and returns the digest; fails when the file cannot be opened.
   */
  method GetMd5(fs: FileSystem, path: string, md5: seq<byte> -> string)
    returns (r: Result<string, IoError>, ghost fed: seq<seq<byte>>)
    ensures path !in fs ==> r == Failure(IoError(path))
    ensures path in fs ==> r == Success(md5(fs[path])) && fed == Chunks(fs[path])
  {
    fed := [];
    if path !in fs {
      return Failure(IoError(path)), fed;
    }
    var content := fs[path];
    var hashed: seq<byte> := [];
    var pos := 0;
    while true
      invariant ReadSoFar(content, pos, fed)
      invariant hashed == content[..pos]
      decreases |content| - pos
    {
      var data := Read(content, pos, ChunkSize);
      ReadStep(content, pos, fed);
      hashed := hashed + data;
      fed := fed + [data];
      if data == [] {
        break;
      }
      pos := pos + |data|;
    }
    assert hashed == content;
    r := Success(md5(hashed));
  }

  /** The answer `is_save_current` gives, or the error it raises. */
  function SaveCurrent(fs: FileSystem, savedPath: string, tmpPath: string, md5: seq<byte> -> string): (r: Result<bool, IoError>)
    ensures r.Success? <==> savedPath in fs && tmpPath in fs
    ensures r.Failure? ==> r.error == IoError(if savedPath !in fs then savedPath else tmpPath)
    ensures r.Success? ==> (r.value <==> md5(fs[savedPath]) == md5(fs[tmpPath]))
  {
    if savedPath !in fs then Failure(IoError(savedPath))
    else if tmpPath !in fs then Failure(IoError(tmpPath))
    else Success(md5(fs[savedPath]) == md5(fs[tmpPath]))
  }

  /**
   * `is_save_current(saved, tmp)`: the digests of the two files are equal.
   * The saved file is hashed first, so its error wins when both fail.
   */
  method IsSaveCurrent(fs: FileSystem, savedPath: string, tmpPath: string, md5: seq<byte> -> string)
    returns (r: Result<bool, IoError>)
    ensures savedPath !in fs ==> r == Failure(IoError(savedPath))
    ensures savedPath in fs && tmpPath !in fs ==> r == Failure(IoError(tmpPath))
    ensures savedPath in fs && tmpPath in fs ==> r == Success(md5(fs[savedPath]) == md5(fs[tmpPath]))
    ensures r == SaveCurrent(fs, savedPath, tmpPath, md5)
  {
    var saved, _ := GetMd5(fs, savedPath, md5);
    if saved.Failure? {
      return Failure(saved.error);
    }
    var tmp, _ := GetMd5(fs, tmpPath, md5);
    if tmp.Failure? {
      return Failure(tmp.error);
    }
    r := Success(saved.value == tmp.value);
  }

  /** Two readable files with the same bytes are reported as the same. */
  lemma SameContentIsCurrent(fs: FileSystem, a: string, b: string, md5: seq<byte> -> string)
    requires a in fs && b in fs && fs[a] == fs[b]
    ensures SaveCurrent(fs, a, b, md5) == Success(true)
  {
  }

  /** A readable file compared with itself is current. */
  lemma SaveCurrentReflexive(fs: FileSystem, a: string, md5: seq<byte> -> string)
    requires a in fs
    ensures SaveCurrent(fs, a, a, md5) == Success(true)
  {
  }

  /** Swapping the two files does not change the answer when both are readable. */
  lemma SaveCurrentSymmetric(fs: FileSystem, a: string, b: string, md5: seq<byte> -> string)
    requires a in fs && b in fs
    ensures SaveCurrent(fs, a, b, md5) == SaveCurrent(fs, b, a, md5)
  {
  }
}
