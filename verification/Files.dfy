// The cache directory: whole-file writes, atomic renames and removals, and
// what a crash between (or inside) them can leave behind.
module Files {
  import opened Prelude

  type Bytes = seq<byte>

  // <hash>.meta, <hash>.bin and their .tmp companions.
  datatype Name = Meta(hash: string) | Bin(hash: string) | MetaTmp(hash: string) | BinTmp(hash: string)

  type Fs = map<Name, Bytes>

  datatype FsOp = Write(name: Name, data: Bytes) | Rename(src: Name, dst: Name) | Remove(name: Name)

  function Apply(op: FsOp, fs: Fs): Fs {
    match op
    case Write(name, data) => fs[name := data]
    case Rename(src, dst) => if src in fs then (fs - {src})[dst := fs[src]] else fs
    case Remove(name) => fs - {name}
  }

  function ApplyAll(ops: seq<FsOp>, fs: Fs): Fs {
    if |ops| == 0 then fs else Apply(ops[|ops| - 1], ApplyAll(ops[..|ops| - 1], fs))
  }

  lemma {:induction false} ApplyAppend(a: seq<FsOp>, b: seq<FsOp>, fs: Fs)
    ensures ApplyAll(a + b, fs) == ApplyAll(b, ApplyAll(a, fs))
  {
    if |b| == 0 {
      assert a + b == a;
    } else {
      assert (a + b)[..|a + b| - 1] == a + b[..|b| - 1];
      ApplyAppend(a, b[..|b| - 1], fs);
    }
  }

  lemma ApplyFour(a: FsOp, b: FsOp, c: FsOp, d: FsOp, fs: Fs)
    ensures ApplyAll([a], fs) == Apply(a, fs)
    ensures ApplyAll([a, b], fs) == Apply(b, Apply(a, fs))
    ensures ApplyAll([a, b, c], fs) == Apply(c, Apply(b, Apply(a, fs)))
    ensures ApplyAll([a, b, c, d], fs) == Apply(d, Apply(c, Apply(b, Apply(a, fs))))
  {
    assert [a][..0] == [] && [a, b][..1] == [a] && [a, b, c][..2] == [a, b] && [a, b, c, d][..3] == [a, b, c];
  }

  lemma ApplyOne(op: FsOp, fs: Fs)
    ensures ApplyAll([op], fs) == Apply(op, fs)
  {
    assert [op][..0] == [];
  }

  lemma ApplyTwo(a: FsOp, b: FsOp, fs: Fs)
    ensures ApplyAll([a, b], fs) == Apply(b, Apply(a, fs))
  {
    ApplyOne(a, fs);
    assert [a, b][..1] == [a];
  }

  lemma ApplyThree(a: FsOp, b: FsOp, c: FsOp, fs: Fs)
    ensures ApplyAll([a, b, c], fs) == Apply(c, Apply(b, Apply(a, fs)))
  {
    ApplyTwo(a, b, fs);
    assert [a, b, c][..2] == [a, b];
  }

  // One operation, some others, and one more.
  lemma FailedSecond(fs: Fs, first: FsOp, mid: seq<FsOp>, last: FsOp)
    ensures ApplyAll([first] + mid + [last], fs) == Apply(last, ApplyAll(mid, Apply(first, fs)))
  {
    ApplyPush([first] + mid, last, fs);
    ApplyAppend([first], mid, fs);
    ApplyPush([], first, fs);
    assert [] + [first] == [first];
  }

  lemma ApplyPush(ops: seq<FsOp>, op: FsOp, fs: Fs)
    ensures ApplyAll(ops + [op], fs) == Apply(op, ApplyAll(ops, fs))
  {
    assert (ops + [op])[..|ops|] == ops;
  }

  // What a failing write leaves: nothing at all, or a file with some prefix of its data.
  function Partial(name: Name, data: Bytes, left: Option<nat>): seq<FsOp> {
    match left
    case None => []
    case Some(k) => [Write(name, if k <= |data| then data[..k] else data)]
  }

  // The directory after a crash: n operations are done, and if the next one is
  // a write, any prefix of its data may already be in the file.
  ghost predicate CrashedAt(ops: seq<FsOp>, n: nat, fs: Fs, after: Fs) {
    && n <= |ops|
    && (|| after == ApplyAll(ops[..n], fs)
        || (&& n < |ops|
            && ops[n].Write?
            && exists k: nat :: k <= |ops[n].data| && after == ApplyAll(ops[..n], fs)[ops[n].name := ops[n].data[..k]]))
  }

  class Directory {
    var files: Fs
    ghost var trace: seq<FsOp>  // every operation so far, in order

    constructor (fs: Fs)
      ensures files == fs && trace == []
    {
      files, trace := fs, [];
    }

    method WriteFile(name: Name, data: Bytes)
      modifies this
      ensures files == Apply(Write(name, data), old(files))
      ensures trace == old(trace) + [Write(name, data)]
    {
      files := files[name := data];
      trace := trace + [Write(name, data)];
    }

    // A write that fails.
    method FailWrite(name: Name, data: Bytes, left: Option<nat>)
      modifies this
      ensures files == ApplyAll(Partial(name, data, left), old(files))
      ensures trace == old(trace) + Partial(name, data, left)
    {
      if left.Some? {
        var some := if left.value <= |data| then data[..left.value] else data;
        ApplyOne(Write(name, some), files);
        WriteFile(name, some);
      }
    }

    method RenameFile(src: Name, dst: Name)
      modifies this
      ensures files == Apply(Rename(src, dst), old(files))
      ensures trace == old(trace) + [Rename(src, dst)]
    {
      if src in files {
        files := (files - {src})[dst := files[src]];
      }
      trace := trace + [Rename(src, dst)];
    }

    method RemoveFile(name: Name)
      modifies this
      ensures files == Apply(Remove(name), old(files))
      ensures trace == old(trace) + [Remove(name)]
    {
      files := files - {name};
      trace := trace + [Remove(name)];
    }
  }
}
