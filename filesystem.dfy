/**
 * The in-memory file system the configuration code is checked against:
 * `TestFileSystem` maps paths to shared `FakeFile`s (`Rc<RefCell<FakeFile>>`
 * in the Rust code, object references here), `open` hands out a
 * `FakeFileWriter` that appends to the shared file, and `read_dir` lists
 * the PNG paths under a directory prefix.
 */
module FileSystem {
  import opened Wrappers
  import opened Text
  import Numeric

  /** The message of the `NotFound` error `open` returns for a missing file. */
  const NotFound: string := "Not found"

  /** A file's bytes, shared by the file system and every writer opened on it. */
  class FakeFile {
    var data: seq<Numeric.u8>

    /** `FakeFile::default()`. */
    constructor ()
      ensures data == []
    {
      data := [];
    }

    /** `write`: the whole buffer is appended and its length reported. */
    method Write(buf: seq<Numeric.u8>) returns (n: nat)
      modifies this
      ensures data == old(data) + buf
      ensures n == |buf|
    {
      data := data + buf;
      n := |buf|;
    }
  }

  /** A writer holding one more reference to a shared file. */
  class FakeFileWriter {
    const file: FakeFile

    constructor (file: FakeFile)
      ensures this.file == file
    {
      this.file := file;
    }

    /** `write` forwards to the shared file. */
    method Write(buf: seq<Numeric.u8>) returns (n: nat)
      modifies file
      ensures file.data == old(file.data) + buf
      ensures n == |buf|
    {
      n := file.Write(buf);
    }

    /** `write_all`: writes the rest of the buffer until nothing is left. */
    method WriteAll(buf: seq<Numeric.u8>)
      modifies file
      ensures file.data == old(file.data) + buf
    {
      var rest := buf;
      while rest != []
        invariant |rest| <= |buf| && rest == buf[|buf| - |rest|..]
        invariant file.data == old(file.data) + buf[..|buf| - |rest|]
        decreases |rest|
      {
        var n := Write(rest);
        rest := rest[n..];
      }
      assert buf[..|buf|] == buf;
    }
  }

  /** A key `read_dir(dir)` lists: below `dir + "/"` at any depth, ending in ".png" in any ASCII case. */
  predicate Listed(dir: string, key: string)
  {
    StartsWith(key, dir + "/") && EndsWith(AsciiLower(key), ".png")
  }

  /** The keys `read_dir(dir)` lists, as a set. */
  function PngUnder(keys: set<string>, dir: string): (s: set<string>)
    ensures s <= keys
  {
    set k | k in keys && Listed(dir, k)
  }

  /** One more key adds itself to the listing exactly when it is listed. */
  lemma PngUnderAdd(keys: set<string>, k: string, dir: string)
    ensures PngUnder(keys + {k}, dir) == PngUnder(keys, dir) + (if Listed(dir, k) then {k} else {})
  {
  }

  /** `xs` lists the elements of `s`, each once. */
  ghost predicate Enumerates(xs: seq<string>, s: set<string>)
  {
    (forall e :: e in xs <==> e in s) && forall i, j :: 0 <= i < j < |xs| ==> xs[i] != xs[j]
  }

  lemma EnumeratesAdd(xs: seq<string>, s: set<string>, k: string)
    requires Enumerates(xs, s) && k !in s
    ensures Enumerates(xs + [k], s + {k})
  {
  }

  /** A sequence without repetitions has as many elements as the set of them. */
  lemma {:induction false} DistinctSize<T>(xs: seq<T>, s: set<T>)
    requires forall e :: e in xs <==> e in s
    requires forall i, j :: 0 <= i < j < |xs| ==> xs[i] != xs[j]
    ensures |xs| == |s|
  {
    if xs != [] {
      var last := xs[|xs| - 1];
      var init := xs[..|xs| - 1];
      forall e | e in init
        ensures e in s - {last}
      {
        var i :| 0 <= i < |init| && init[i] == e;
        assert xs[i] == e;
      }
      DistinctSize(init, s - {last});
    }
  }

  /** `TestFileSystem`: the path table. */
  class TestFileSystem {
    var files: map<string, FakeFile>

    /** `TestFileSystem::new()`. */
    constructor ()
      ensures files == map[]
      ensures Valid()
    {
      files := map[];
    }

    /** Different paths never share a file: every entry was made by its own `FakeFile::default()`. */
    predicate Valid()
      reads this
    {
      forall p, q :: p in files && q in files && p != q ==> files[p] != files[q]
    }

    /** The bytes stored under each path. */
    function Contents(): map<string, seq<Numeric.u8>>
      reads this, files.Values
    {
      map p | p in files :: files[p].data
    }

    /** `exists`: the path has an entry, whatever its contents. */
    function Exists(path: string): (b: bool)
      reads this, files.Values
      ensures b <==> path in Contents()
    {
      path in files
    }

    /**
     * `open`. With `fileExists`, a present file is emptied and a writer to
     * that same file returned, and a missing one gives `NotFound` with
     * nothing changed. Without it, a fresh empty file is put at the path,
     * replacing any earlier entry. No other path and no other file changes.
     */
    method Open(path: string, fileExists: bool) returns (r: Result<FakeFileWriter, string>)
      requires Valid()
      modifies this, files.Values
      ensures Valid()
      ensures fileExists && path !in old(files) ==> r == Failure(NotFound) && files == old(files) && Contents() == old(Contents())
      ensures fileExists && path in old(files) ==> r.Success? && r.value.file == old(files[path]) && files == old(files)
      ensures !fileExists ==> r.Success? && fresh(r.value.file) && files == old(files)[path := r.value.file]
      ensures r.Success? ==> fresh(r.value) && path in files && r.value.file == files[path] && r.value.file.data == []
      ensures r.Success? ==> Contents() == old(Contents())[path := []]
    {
      if fileExists {
        if path in files {
          var file := files[path];
          file.data := [];
          var writer := new FakeFileWriter(file);
          r := Success(writer);
          assert Contents() == old(Contents())[path := []] by {
            forall q | q in files && q != path
              ensures files[q].data == old(files[q].data)
            {
              assert files[q] != file;
            }
          }
        } else {
          r := Failure(NotFound);
        }
      } else {
        var file := new FakeFile();
        files := files[path := file];
        var writer := new FakeFileWriter(file);
        r := Success(writer);
      }
    }

    /**
     * `read_dir`: every listed key exactly once, in the map's iteration
     * order (any order). It never fails, and `dir` itself need not exist.
     */
    method ReadDir(dir: string) returns (entries: seq<string>)
      ensures forall e :: e in entries <==> e in PngUnder(files.Keys, dir)
      ensures forall i, j :: 0 <= i < j < |entries| ==> entries[i] != entries[j]
      ensures |entries| == |PngUnder(files.Keys, dir)|
    {
      var remaining := files.Keys;
      entries := [];
      ghost var done: set<string> := {};
      while remaining != {}
        invariant remaining <= files.Keys && done == files.Keys - remaining
        invariant Enumerates(entries, PngUnder(done, dir))
        decreases |remaining|
      {
        var k :| k in remaining;
        PngUnderAdd(done, k, dir);
        if Listed(dir, k) {
          EnumeratesAdd(entries, PngUnder(done, dir), k);
          entries := entries + [k];
        }
        remaining := remaining - {k};
        done := done + {k};
      }
      assert done == files.Keys;
      DistinctSize(entries, PngUnder(files.Keys, dir));
    }
  }

  // ----- the table after a sequence of calls -----

  /** Opening a path for creation and writing to it leaves exactly those bytes there, and `exists` answers yes. */
  method CreateAndWrite(fs: TestFileSystem, path: string, buf: seq<Numeric.u8>)
    requires fs.Valid()
    modifies fs, fs.files.Values
    ensures fs.Valid()
    ensures fs.Exists(path)
    ensures fs.Contents() == old(fs.Contents())[path := buf]
  {
    var r := fs.Open(path, false);
    ghost var afterOpen := fs.Contents();
    ghost var table := fs.files;
    var writer := r.value;
    writer.WriteAll(buf);
    forall q | q in fs.files && q != path
      ensures fs.files[q].data == afterOpen[q]
    {
      assert fs.files[q] != writer.file;
    }
    assert fs.files == table;
    assert writer.file.data == buf;
    assert fs.Contents().Keys == afterOpen.Keys;
    assert fs.Contents() == afterOpen[path := buf];
  }
}
