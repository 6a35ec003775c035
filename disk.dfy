/** The files the codec reads and writes: binary files in the working
    directory (the source file and its `.bak` copy) and the text files of the
    `./Maps` directory, each directory a map from file name to contents. */
module Disk {
  import opened Base

  /** `f'{name}.bak'` */
  function BackupName(name: string): (b: string)
    ensures |b| == |name| + 4 && b[..|name|] == name && b != name
  {
    name + ".bak"
  }

  /** The contents of a file opened with 'br+' after `data` is written at
      offset `pos`: the bytes before and after the written range are kept,
      and the file only grows when the write runs past its end. */
  function Overwrite(contents: seq<byte>, pos: nat, data: seq<byte>): (r: seq<byte>)
    requires pos <= |contents|
    ensures |r| == if pos + |data| <= |contents| then |contents| else pos + |data|
    ensures r[..pos] == contents[..pos] && r[pos..pos + |data|] == data
    ensures pos + |data| <= |contents| ==> r[pos + |data|..] == contents[pos + |data|..]
  {
    contents[..pos] + data + (if pos + |data| <= |contents| then contents[pos + |data|..] else [])
  }

  /** Two writes in a row are one write of both pieces. */
  lemma OverwriteThen(contents: seq<byte>, a: seq<byte>, b: seq<byte>)
    requires |a| <= |contents|
    ensures |a| <= |Overwrite(contents, 0, a)|
    ensures Overwrite(Overwrite(contents, 0, a), |a|, b) == Overwrite(contents, 0, a + b)
  {
    var mid := Overwrite(contents, 0, a);
    var lhs := Overwrite(mid, |a|, b);
    var rhs := Overwrite(contents, 0, a + b);
    assert |lhs| == |rhs|;
    forall i | 0 <= i < |lhs| ensures lhs[i] == rhs[i] {
      if i < |a| {
        assert lhs[i] == mid[..|a|][i];
        assert rhs[i] == rhs[0..|a + b|][i];
      } else if i < |a| + |b| {
        assert lhs[i] == lhs[|a|..|a| + |b|][i - |a|];
        assert rhs[i] == rhs[0..|a + b|][i];
      } else {
        assert lhs[i] == lhs[|a| + |b|..][i - |a| - |b|];
        assert rhs[i] == rhs[|a + b|..][i - |a| - |b|];
        assert mid[|a|..][i - |a|] == contents[|a|..][i - |a|];
      }
    }
  }

  /** Writing from offset 0 leaves the output followed by whatever of the old
      contents lies past it: the file is never truncated. */
  lemma OverwriteFromStart(contents: seq<byte>, out: seq<byte>)
    ensures |out| <= |contents| ==> Overwrite(contents, 0, out) == out + contents[|out|..]
    ensures |out| > |contents| ==> Overwrite(contents, 0, out) == out
  {
  }

  /** Writing a file's own bytes back over it changes nothing. */
  lemma OverwriteSame(contents: seq<byte>)
    ensures Overwrite(contents, 0, contents) == contents
  {
  }

  /** `write(b'')` at the end of a file changes nothing. */
  lemma OverwriteNothing(contents: seq<byte>)
    ensures Overwrite(contents, |contents|, []) == contents
  {
  }

  /** The backup step of main.py and bytebiter.py: if `name.bak` is absent,
      copy `name` into it; opening a missing source raises. */
  function BackupIfAbsent(files: map<string, seq<byte>>, name: string): Result<map<string, seq<byte>>>
  {
    if BackupName(name) in files then
      (if name in files then Ok(files) else Err(FileNotFound))
    else if name in files then Ok(files[BackupName(name) := files[name]])
    else Err(FileNotFound)
  }

  /** The backup step of map_gen.py: the source is always copied over the
      backup. */
  function BackupAlways(files: map<string, seq<byte>>, name: string): Result<map<string, seq<byte>>>
  {
    if name in files then Ok(files[BackupName(name) := files[name]]) else Err(FileNotFound)
  }

  /** `open(name, 'br+')` and writing `out` from the start. */
  function Rewrite(files: map<string, seq<byte>>, name: string, out: seq<byte>): Result<map<string, seq<byte>>>
  {
    if name in files then Ok(files[name := Overwrite(files[name], 0, out)]) else Err(FileNotFound)
  }

  /** Backup when absent, then overwrite: the patch-back of main.py and
      bytebiter.py. */
  function PatchOnce(files: map<string, seq<byte>>, name: string, out: seq<byte>): Result<map<string, seq<byte>>>
  {
    match BackupIfAbsent(files, name)
    case Err(e) => Err(e)
    case Ok(f) => Rewrite(f, name, out)
  }

  /** Unconditional backup, then overwrite: the patch-back of map_gen.py. */
  function PatchAlways(files: map<string, seq<byte>>, name: string, out: seq<byte>): Result<map<string, seq<byte>>>
  {
    match BackupAlways(files, name)
    case Err(e) => Err(e)
    case Ok(f) => Rewrite(f, name, out)
  }

  /** A patch fails exactly when the source is missing. When it succeeds the
      backup holds the source as it was before, unless a backup already
      existed, which is then kept; the source holds the output followed by the
      old bytes past it; no other file changes and no file disappears. */
  lemma PatchOnceEffect(files: map<string, seq<byte>>, name: string, out: seq<byte>)
    ensures PatchOnce(files, name, out).Err? <==> name !in files
    ensures PatchOnce(files, name, out).Err? ==> PatchOnce(files, name, out).error == FileNotFound
    ensures name in files ==>
      var f := PatchOnce(files, name, out).value;
      var bak := BackupName(name);
      && f.Keys == files.Keys + {bak}
      && f[bak] == (if bak in files then files[bak] else files[name])
      && f[name] == Overwrite(files[name], 0, out)
      && forall other :: other in files && other != name && other != bak ==> f[other] == files[other]
  {
  }

  /** Patching twice: the first backup survives the second patch, so it still
      holds the source from before the first patch. */
  lemma PatchOnceTwice(files: map<string, seq<byte>>, name: string, out1: seq<byte>, out2: seq<byte>)
    requires name in files && BackupName(name) !in files
    ensures PatchOnce(files, name, out1).Ok?
    ensures PatchOnce(PatchOnce(files, name, out1).value, name, out2).Ok?
    ensures PatchOnce(PatchOnce(files, name, out1).value, name, out2).value[BackupName(name)] == files[name]
  {
    PatchOnceEffect(files, name, out1);
    PatchOnceEffect(PatchOnce(files, name, out1).value, name, out2);
  }

  /** map_gen.py backs up on every run: a second patch replaces the backup
      with the already patched source. */
  lemma PatchAlwaysTwice(files: map<string, seq<byte>>, name: string, out1: seq<byte>, out2: seq<byte>)
    requires name in files
    ensures PatchAlways(files, name, out1).Ok?
    ensures PatchAlways(PatchAlways(files, name, out1).value, name, out2).Ok?
    ensures PatchAlways(PatchAlways(files, name, out1).value, name, out2).value[BackupName(name)]
            == Overwrite(files[name], 0, out1)
  {
  }

  /** Writing a file's own bytes back leaves it as it was. */
  lemma PatchOnceSame(files: map<string, seq<byte>>, name: string)
    requires name in files
    ensures PatchOnce(files, name, files[name]).Ok?
    ensures PatchOnce(files, name, files[name]).value[name] == files[name]
  {
    OverwriteSame(files[name]);
  }

  /** Patching a file with its own bytes leaves it as it was, and its backup
      then holds it too, unless a backup already existed. */
  lemma PatchOnceRestores(files: map<string, seq<byte>>, name: string)
    requires name in files
    ensures PatchOnce(files, name, files[name]).Ok?
    ensures var f := PatchOnce(files, name, files[name]).value;
      && name in f && BackupName(name) in f
      && f[name] == files[name]
      && f[BackupName(name)] == if BackupName(name) in files then files[BackupName(name)] else files[name]
  {
    PatchOnceEffect(files, name, files[name]);
    OverwriteSame(files[name]);
  }

  /** map_gen.py's patch with the file's own bytes leaves the file as it
      was, and the backup holds it too. */
  lemma PatchAlwaysRestores(files: map<string, seq<byte>>, name: string)
    requires name in files
    ensures PatchAlways(files, name, files[name]).Ok?
    ensures var f := PatchAlways(files, name, files[name]).value;
      && name in f && BackupName(name) in f
      && f[name] == files[name] && f[BackupName(name)] == files[name]
  {
    OverwriteSame(files[name]);
  }

  /** The level files after removing `names` one after the other; the first
      name no longer there raises. */
  function Cleared(maps: map<string, string>, names: seq<string>): Result<map<string, string>>
    decreases |names|
  {
    if names == [] then Ok(maps)
    else
      match Cleared(maps, names[..|names| - 1])
      case Err(e) => Err(e)
      case Ok(m) =>
        var name := names[|names| - 1];
        if name in m then Ok(m - {name}) else Err(FileNotFound)
  }

  /** Removing distinct level files that were all there removes exactly
      them. */
  lemma {:induction false} ClearedAll(maps: map<string, string>, names: seq<string>)
    requires forall i :: 0 <= i < |names| ==> names[i] in maps
    requires forall i, j :: 0 <= i < j < |names| ==> names[i] != names[j]
    ensures Cleared(maps, names) == Ok(map name | name in maps && name !in names :: maps[name])
    decreases |names|
  {
    if names != [] {
      var init, last := names[..|names| - 1], names[|names| - 1];
      ClearedAll(maps, init);
      var m := map name | name in maps && name !in init :: maps[name];
      assert last !in init by {
        forall i | 0 <= i < |init| ensures init[i] != last {
          assert init[i] == names[i];
        }
      }
      assert last in m;
      var target := map name | name in maps && name !in names :: maps[name];
      forall name | name in maps ensures name in target <==> name in m - {last} {
        InSnoc(names, name);
      }
      assert m - {last} == target;
    } else {
      assert maps == map name | name in maps && name !in names :: maps[name];
    }
  }

  /** Removing each listed file from `./Maps` in turn, over the level
      file names listed when the program starts. */
  method ClearMaps(disk: Disk, mapDir: seq<string>) returns (e: Option<Error>)
    modifies disk
    ensures disk.files == old(disk.files)
    ensures Cleared(old(disk.maps), mapDir).Ok? ==> e.None? && disk.maps == Cleared(old(disk.maps), mapDir).value
    ensures Cleared(old(disk.maps), mapDir).Err? ==> e == Some(Cleared(old(disk.maps), mapDir).error)
  {
    var i := 0;
    assert mapDir[..0] == [];
    while i < |mapDir|
      invariant 0 <= i <= |mapDir|
      invariant Cleared(old(disk.maps), mapDir[..i]) == Ok(disk.maps)
      invariant disk.files == old(disk.files)
    {
      assert mapDir[..i + 1][..i] == mapDir[..i];
      e := disk.RemoveText(mapDir[i]);
      if e.Some? {
        ClearedErr(old(disk.maps), mapDir, i + 1);
        return;
      }
      i := i + 1;
    }
    assert mapDir[..i] == mapDir;
    e := None;
  }

  /** Once a prefix of the names fails, the whole list fails the same way. */
  lemma {:induction false} ClearedErr(maps: map<string, string>, names: seq<string>, i: nat)
    requires 0 < i <= |names| && Cleared(maps, names[..i]).Err?
    ensures Cleared(maps, names) == Cleared(maps, names[..i])
    decreases |names| - i
  {
    if i < |names| {
      assert names[..i + 1][..i] == names[..i];
      ClearedErr(maps, names, i + 1);
    } else {
      assert names[..i] == names;
    }
  }

  class Disk {
    /** The binary files of the working directory. */
    var files: map<string, seq<byte>>
    /** The text files of `./Maps`. */
    var maps: map<string, string>

    constructor (files: map<string, seq<byte>>, maps: map<string, string>)
      ensures this.files == files && this.maps == maps
    {
      this.files := files;
      this.maps := maps;
    }

    /** `os.path.isfile(name)` */
    predicate IsFile(name: string)
      reads this
    {
      name in files
    }

    /** `open(name, 'rb').read()` */
    function ReadBytes(name: string): (r: Result<seq<byte>>)
      reads this
      ensures r.Ok? <==> name in files
      ensures r.Ok? ==> r.value == files[name]
      ensures r.Err? ==> r.error == FileNotFound
    {
      if name in files then Ok(files[name]) else Err(FileNotFound)
    }

    /** `open('./Maps/' + name).read()` */
    function ReadText(name: string): (r: Result<string>)
      reads this
      ensures r.Ok? <==> name in maps
      ensures r.Ok? ==> r.value == maps[name]
      ensures r.Err? ==> r.error == FileNotFound
    {
      if name in maps then Ok(maps[name]) else Err(FileNotFound)
    }

    /** `open('./Maps/' + name, 'w')` and write the whole text. */
    method WriteText(name: string, text: string)
      modifies this
      ensures maps == old(maps)[name := text]
      ensures files == old(files)
    {
      maps := maps[name := text];
    }

    /** `os.remove('./Maps/' + name)`; a file that is not there raises. */
    method RemoveText(name: string) returns (e: Option<Error>)
      modifies this
      ensures name in old(maps) ==> e.None? && maps == old(maps) - {name}
      ensures name !in old(maps) ==> e == Some(FileNotFound) && maps == old(maps)
      ensures files == old(files)
    {
      if name !in maps {
        return Some(FileNotFound);
      }
      maps := maps - {name};
      e := None;
    }

    /** `open(dst, 'wb').write(open(src, 'br+').read())` */
    method CopyFile(src: string, dst: string)
      requires src in files
      modifies this
      ensures files == old(files)[dst := old(files)[src]]
      ensures maps == old(maps)
    {
      files := files[dst := files[src]];
    }

    /** One `write(data)` on a file opened with 'br+' whose position is `pos`. */
    method WriteAt(name: string, pos: nat, data: seq<byte>)
      requires name in files && pos <= |files[name]|
      modifies this
      ensures files == old(files)[name := Overwrite(old(files)[name], pos, data)]
      ensures maps == old(maps)
    {
      files := files[name := Overwrite(files[name], pos, data)];
    }

    /** The chunks written one after the other into `name` opened with 'br+'. */
    method WriteChunks(name: string, chunks: seq<seq<byte>>)
      requires name in files
      modifies this
      ensures files == old(files)[name := Overwrite(old(files)[name], 0, Flatten(chunks))]
      ensures maps == old(maps)
    {
      var pos: nat := 0;
      var i := 0;
      ghost var start := files[name];
      assert chunks[..0] == [];
      while i < |chunks|
        invariant 0 <= i <= |chunks|
        invariant name in files && pos == |Flatten(chunks[..i])| <= |files[name]|
        invariant files == old(files)[name := Overwrite(start, 0, Flatten(chunks[..i]))]
        invariant maps == old(maps)
      {
        ghost var done := Flatten(chunks[..i]);
        assert pos <= |start| || pos <= |Overwrite(start, 0, done)|;
        WriteAt(name, pos, chunks[i]);
        assert chunks[..i + 1] == chunks[..i] + [chunks[i]];
        FlattenAppend(chunks[..i], [chunks[i]]);
        assert Flatten([chunks[i]]) == chunks[i];
        if |done| <= |start| {
          OverwriteThen(start, done, chunks[i]);
        } else {
          assert Overwrite(start, 0, done) == done;
          assert Overwrite(done, |done|, chunks[i]) == done + chunks[i];
          assert Overwrite(start, 0, done + chunks[i]) == done + chunks[i];
        }
        pos := pos + |chunks[i]|;
        i := i + 1;
      }
      assert chunks[..i] == chunks;
    }
  }
}
