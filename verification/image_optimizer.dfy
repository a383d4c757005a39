/**
 * The build-time image script (scripts/optimize-images.js): the output-path
 * rewrite, the file-name test, and the depth-first walk that converts each
 * matching file to WebP and deletes the original once the WebP is written.
 * The resize/encode library and the file system calls are not modelled; the
 * outcome of each conversion is an input.
 */
module ImageOptimizer {

  /** ASCII case folding, what the `i` flag does for the letters of these extensions. */
  function Lower(c: char): char
  {
    if 'A' <= c <= 'Z' then (c as int + 32) as char else c
  }

  /** Character `k` counted from the end of `s` (0 is the last), folded to lower case. */
  function Back(s: string, k: nat): char
    requires k < |s|
  {
    Lower(s[|s| - 1 - k])
  }

  /** `s` ends in `.jpg`, letters in any case. */
  predicate EndsJpg(s: string)
  {
    |s| >= 4 && Back(s, 3) == '.' && Back(s, 2) == 'j' && Back(s, 1) == 'p' && Back(s, 0) == 'g'
  }

  /** `s` ends in `.jpeg`, letters in any case. */
  predicate EndsJpeg(s: string)
  {
    |s| >= 5 && Back(s, 4) == '.' && Back(s, 3) == 'j' && Back(s, 2) == 'p' && Back(s, 1) == 'e' && Back(s, 0) == 'g'
  }

  /** `s` ends in `.png`, letters in any case. */
  predicate EndsPng(s: string)
  {
    |s| >= 4 && Back(s, 3) == '.' && Back(s, 2) == 'p' && Back(s, 1) == 'n' && Back(s, 0) == 'g'
  }

  /** `/\.(jpg|jpeg|png)$/i.test(s)`. */
  predicate HasImageExtension(s: string)
  {
    EndsJpg(s) || EndsJpeg(s) || EndsPng(s)
  }

  /**
   * Length of the text the pattern matches at the end of `s`, 0 when it does
   * not match. The alternatives exclude each other, so the match is unique.
   */
  function ExtensionLength(s: string): (n: nat)
    ensures n <= |s|
    ensures n == 5 <==> EndsJpeg(s)
    ensures n == 4 <==> EndsJpg(s) || EndsPng(s)
    ensures n == 0 <==> !HasImageExtension(s)
    ensures !(EndsJpg(s) && EndsPng(s)) && !(EndsJpeg(s) && (EndsJpg(s) || EndsPng(s)))
  {
    if EndsJpeg(s) then 5
    else if HasImageExtension(s) then 4
    else 0
  }

  /** `inputPath.replace(/\.(jpg|jpeg|png)$/i, '.webp')`. */
  function OutputPath(path: string): string
  {
    if HasImageExtension(path) then path[..|path| - ExtensionLength(path)] + ".webp" else path
  }

  /** The characters near the end of `a + b` are those of `b`. */
  lemma BackOfAppend(a: string, b: string, k: nat)
    requires k < |b|
    ensures Back(a + b, k) == Back(b, k)
  {
    assert (a + b)[|a + b| - 1 - k] == b[|b| - 1 - k];
  }

  /**
   * A stem followed by a whole matching extension (`.jpg`, `.JPEG`, `.Png`, ...)
   * becomes the same stem followed by `.webp`: only that last extension changes.
   */
  lemma RewriteReplacesExtension(stem: string, ext: string)
    requires HasImageExtension(ext) && ExtensionLength(ext) == |ext|
    ensures HasImageExtension(stem + ext)
    ensures OutputPath(stem + ext) == stem + ".webp"
  {
    var s := stem + ext;
    BackOfAppend(stem, ext, 0);
    BackOfAppend(stem, ext, 1);
    BackOfAppend(stem, ext, 2);
    BackOfAppend(stem, ext, 3);
    if |ext| == 5 {
      BackOfAppend(stem, ext, 4);
      assert EndsJpeg(s);
    } else {
      assert EndsJpg(s) || EndsPng(s);
      assert !EndsJpeg(s);
    }
    assert ExtensionLength(s) == |ext|;
    assert s[..|s| - |ext|] == stem;
  }

  /** The rewritten path never ends in an image extension, so the rewrite is idempotent. */
  lemma RewriteIdempotent(path: string)
    ensures !HasImageExtension(OutputPath(path))
    ensures OutputPath(OutputPath(path)) == OutputPath(path)
  {
    var out := OutputPath(path);
    if HasImageExtension(path) {
      assert out[|out| - 1] == 'p';
      assert Back(out, 0) == 'p';
    }
  }

  /** Worked cases: only the last extension is replaced, upper case included; `.webp` stays. */
  lemma RewriteExamples()
    ensures OutputPath("a.png.jpg") == "a.png.webp"
    ensures OutputPath("photo.JPEG") == "photo.webp"
    ensures OutputPath("cat.webp") == "cat.webp"
  {
    assert Back(".jpg", 3) == '.' && Back(".jpg", 2) == 'j' && Back(".jpg", 1) == 'p' && Back(".jpg", 0) == 'g';
    RewriteReplacesExtension("a.png", ".jpg");
    assert Back(".JPEG", 4) == '.' && Back(".JPEG", 3) == 'j' && Back(".JPEG", 2) == 'p';
    assert Back(".JPEG", 1) == 'e' && Back(".JPEG", 0) == 'g';
    RewriteReplacesExtension("photo", ".JPEG");
    assert Back("cat.webp", 0) == 'p';
  }

  /** `path.join(dir, name)` for a listed entry name. */
  function Join(dir: string, name: string): string
  {
    dir + "/" + name
  }

  /** Testing the entry's name and testing its full path agree: the `/` before the name matches no part of a pattern. */
  lemma JoinKeepsExtension(dir: string, name: string)
    ensures HasImageExtension(Join(dir, name)) <==> HasImageExtension(name)
  {
    var p := Join(dir, name);
    assert p == (dir + "/") + name;
    forall k | 0 <= k < |name| ensures Back(p, k) == Back(name, k) {
      BackOfAppend(dir + "/", name, k);
    }
    if |name| < 5 {
      assert p[|p| - 1 - |name|] == '/';
      assert Back(p, |name|) == '/';
    }
  }

  /** A directory entry; `File` stands for every entry that is not a directory. */
  datatype Entry = Dir(name: string, entries: seq<Entry>) | File(name: string)

  /** What the conversion library and `unlink` did for one input path. */
  datatype Outcome = Converted | WriteFailed | UnlinkFailed

  /** A change the script makes to the file system. */
  datatype FsOp = Wrote(path: string) | Removed(path: string)

  /** The paths handed to `optimizeImage` when `processDirectory` lists `entries` in `dir`, in call order. */
  function Candidates(dir: string, entries: seq<Entry>): seq<string>
    decreases entries
  {
    if entries == [] then [] else EntryCandidates(dir, entries[0]) + Candidates(dir, entries[1..])
  }

  /** A directory is always entered, whatever its name; a file is converted iff its name matches. */
  function EntryCandidates(dir: string, e: Entry): seq<string>
    decreases e
  {
    match e
    case Dir(name, entries) => Candidates(Join(dir, name), entries)
    case File(name) => if HasImageExtension(name) then [Join(dir, name)] else []
  }

  /** Every non-directory path below `dir`, depth-first in listing order: the reference walk. */
  function Files(dir: string, entries: seq<Entry>): seq<string>
    decreases entries
  {
    if entries == [] then []
    else
      (match entries[0]
       case Dir(name, children) => Files(Join(dir, name), children)
       case File(name) => [Join(dir, name)])
      + Files(dir, entries[1..])
  }

  /** The paths of `paths` that end in an image extension, in order. */
  function ImagePaths(paths: seq<string>): (r: seq<string>)
    ensures forall p :: p in r <==> p in paths && HasImageExtension(p)
  {
    if paths == [] then []
    else (if HasImageExtension(paths[0]) then [paths[0]] else []) + ImagePaths(paths[1..])
  }

  lemma {:induction false} ImagePathsAppend(a: seq<string>, b: seq<string>)
    ensures ImagePaths(a + b) == ImagePaths(a) + ImagePaths(b)
  {
    if a == [] {
      assert a + b == b;
    } else {
      assert (a + b)[0] == a[0];
      assert (a + b)[1..] == a[1..] + b;
      ImagePathsAppend(a[1..], b);
    }
  }

  lemma {:induction false} CandidatesAppend(dir: string, a: seq<Entry>, b: seq<Entry>)
    ensures Candidates(dir, a + b) == Candidates(dir, a) + Candidates(dir, b)
  {
    if a == [] {
      assert a + b == b;
    } else {
      assert (a + b)[0] == a[0];
      assert (a + b)[1..] == a[1..] + b;
      CandidatesAppend(dir, a[1..], b);
    }
  }

  /**
   * The walk converts exactly the image files of the tree, in depth-first
   * listing order: the candidates are the tree's files filtered by the pattern.
   */
  lemma {:induction false} CandidatesAreImageFiles(dir: string, entries: seq<Entry>)
    ensures Candidates(dir, entries) == ImagePaths(Files(dir, entries))
    decreases entries
  {
    if entries != [] {
      var head := match entries[0]
        case Dir(name, children) => Files(Join(dir, name), children)
        case File(name) => [Join(dir, name)];
      ImagePathsAppend(head, Files(dir, entries[1..]));
      CandidatesAreImageFiles(dir, entries[1..]);
      match entries[0]
      case Dir(name, children) =>
        CandidatesAreImageFiles(Join(dir, name), children);
      case File(name) =>
        JoinKeepsExtension(dir, name);
        assert ImagePaths([Join(dir, name)]) == if HasImageExtension(name) then [Join(dir, name)] else [];
    }
  }

  /** The file-system changes of one `optimizeImage` call: the WebP write, then the delete. */
  function Ops(input: string, outcome: Outcome): seq<FsOp>
  {
    match outcome
    case Converted => [Wrote(OutputPath(input)), Removed(input)]
    case UnlinkFailed => [Wrote(OutputPath(input))]
    case WriteFailed => []
  }

  /** The changes of a sequence of calls; a failure is caught, so the next call still runs. */
  function Journal(inputs: seq<string>, outcome: string -> Outcome): seq<FsOp>
  {
    if inputs == [] then [] else Ops(inputs[0], outcome(inputs[0])) + Journal(inputs[1..], outcome)
  }

  lemma {:induction false} JournalAppend(a: seq<string>, b: seq<string>, outcome: string -> Outcome)
    ensures Journal(a + b, outcome) == Journal(a, outcome) + Journal(b, outcome)
  {
    if a == [] {
      assert a + b == b;
    } else {
      assert (a + b)[0] == a[0];
      assert (a + b)[1..] == a[1..] + b;
      JournalAppend(a[1..], b, outcome);
    }
  }

  /**
   * An original is removed only right after its WebP was written: the journal
   * starts with a write, and every delete directly follows the write of the
   * WebP made from the deleted path.
   */
  lemma {:induction false} DeleteOnlyAfterWrite(inputs: seq<string>, outcome: string -> Outcome)
    ensures forall k :: 0 < k < |Journal(inputs, outcome)| && Journal(inputs, outcome)[k].Removed? ==>
      Journal(inputs, outcome)[k - 1] == Wrote(OutputPath(Journal(inputs, outcome)[k].path))
    ensures |Journal(inputs, outcome)| > 0 ==> Journal(inputs, outcome)[0].Wrote?
  {
    if inputs != [] {
      var head := Ops(inputs[0], outcome(inputs[0]));
      var tail := Journal(inputs[1..], outcome);
      DeleteOnlyAfterWrite(inputs[1..], outcome);
      var j := head + tail;
      forall k | 0 < k < |j| && j[k].Removed?
        ensures j[k - 1] == Wrote(OutputPath(j[k].path))
      {
        if k > |head| {
          assert j[k] == tail[k - |head|] && j[k - 1] == tail[k - 1 - |head|];
        }
      }
    }
  }

  /**
   * Exactly the inputs whose conversion fully succeeded are deleted, and a
   * WebP is written for exactly the inputs whose write succeeded, failures
   * of other inputs notwithstanding.
   */
  lemma {:induction false} JournalContents(inputs: seq<string>, outcome: string -> Outcome)
    ensures forall p :: Removed(p) in Journal(inputs, outcome) <==> p in inputs && outcome(p) == Converted
    ensures forall q :: Wrote(q) in Journal(inputs, outcome) <==>
      exists p :: p in inputs && outcome(p) != WriteFailed && q == OutputPath(p)
  {
    if inputs != [] {
      var tail := Journal(inputs[1..], outcome);
      JournalContents(inputs[1..], outcome);
      var j := Journal(inputs, outcome);
      forall q ensures Wrote(q) in j <==> exists p :: p in inputs && outcome(p) != WriteFailed && q == OutputPath(p)
      {
        if Wrote(q) in tail {
          var p :| p in inputs[1..] && outcome(p) != WriteFailed && q == OutputPath(p);
          assert p in inputs;
        }
        if exists p :: p in inputs && outcome(p) != WriteFailed && q == OutputPath(p) {
          var p :| p in inputs && outcome(p) != WriteFailed && q == OutputPath(p);
          if p != inputs[0] {
            assert p in inputs[1..];
          }
        }
      }
      forall p ensures Removed(p) in j <==> p in inputs && outcome(p) == Converted
      {
        if p in inputs && p != inputs[0] {
          assert p in inputs[1..];
        }
      }
    }
  }

  /** Processing entry `i` extends the journal of the entries before it by that entry's own changes. */
  lemma JournalStep(dir: string, entries: seq<Entry>, i: nat, outcome: string -> Outcome)
    requires i < |entries|
    ensures Journal(Candidates(dir, entries[..i + 1]), outcome) ==
      Journal(Candidates(dir, entries[..i]), outcome) + Journal(EntryCandidates(dir, entries[i]), outcome)
  {
    var e := entries[i];
    assert entries[..i + 1] == entries[..i] + [e];
    assert [e][1..] == [];
    CandidatesAppend(dir, entries[..i], [e]);
    assert Candidates(dir, [e]) == EntryCandidates(dir, e);
    JournalAppend(Candidates(dir, entries[..i]), EntryCandidates(dir, e), outcome);
  }

  /** The listing loop's invariant is kept by one more entry. */
  lemma LoopStep(start: seq<FsOp>, before: seq<FsOp>, after: seq<FsOp>, dir: string, entries: seq<Entry>, i: nat,
                 outcome: string -> Outcome)
    requires i < |entries|
    requires before == start + Journal(Candidates(dir, entries[..i]), outcome)
    requires after == before + Journal(EntryCandidates(dir, entries[i]), outcome)
    ensures after == start + Journal(Candidates(dir, entries[..i + 1]), outcome)
  {
    JournalStep(dir, entries, i, outcome);
  }

  /** A listed file contributes the changes of one conversion when its name matches, none otherwise. */
  lemma FileJournal(dir: string, name: string, outcome: string -> Outcome)
    ensures Journal(EntryCandidates(dir, File(name)), outcome) ==
      if HasImageExtension(name) then Ops(Join(dir, name), outcome(Join(dir, name))) else []
  {
    var path := Join(dir, name);
    assert [path][1..] == [];
  }

  /** The file system as the script changes it: the journal of its writes and deletes, in order. */
  class FileSystem {
    var journal: seq<FsOp>

    constructor ()
      ensures journal == []
    {
      journal := [];
    }

    /** Writing the WebP; whether it succeeds is up to the conversion library. */
    method WriteWebp(path: string, ok: bool)
      modifies this
      ensures journal == old(journal) + if ok then [Wrote(path)] else []
    {
      if ok {
        journal := journal + [Wrote(path)];
      }
    }

    /** `fs.unlink`; whether it succeeds is up to the operating system. */
    method Unlink(path: string, ok: bool)
      modifies this
      ensures journal == old(journal) + if ok then [Removed(path)] else []
    {
      if ok {
        journal := journal + [Removed(path)];
      }
    }
  }

  /** `optimizeImage`: write the WebP, and only when that succeeded delete the original; errors are caught. */
  method OptimizeImage(fs: FileSystem, input: string, outcome: Outcome)
    modifies fs
    ensures fs.journal == old(fs.journal) + Ops(input, outcome)
  {
    var output := OutputPath(input);
    var written := outcome != WriteFailed;
    fs.WriteWebp(output, written);
    if written {
      fs.Unlink(input, outcome == Converted);
    }
  }

  /** `processDirectory`: each listed entry in turn, recursing into directories before moving on. */
  method ProcessDirectory(fs: FileSystem, dir: string, entries: seq<Entry>, outcome: string -> Outcome)
    modifies fs
    ensures fs.journal == old(fs.journal) + Journal(Candidates(dir, entries), outcome)
    decreases entries
  {
    var i := 0;
    ghost var start := fs.journal;
    while i < |entries|
      invariant 0 <= i <= |entries|
      invariant fs.journal == start + Journal(Candidates(dir, entries[..i]), outcome)
    {
      ghost var before := fs.journal;
      ProcessEntry(fs, dir, entries[i], outcome);
      LoopStep(start, before, fs.journal, dir, entries, i, outcome);
      i := i + 1;
    }
    assert entries[..i] == entries;
  }

  /** The body of the listing loop for one entry: a directory is walked, a matching file converted. */
  method ProcessEntry(fs: FileSystem, dir: string, e: Entry, outcome: string -> Outcome)
    modifies fs
    ensures fs.journal == old(fs.journal) + Journal(EntryCandidates(dir, e), outcome)
    decreases e
  {
    match e {
      case Dir(name, children) =>
        ProcessDirectory(fs, Join(dir, name), children, outcome);
      case File(name) =>
        FileJournal(dir, name, outcome);
        if HasImageExtension(name) {
          var path := Join(dir, name);
          OptimizeImage(fs, path, outcome(path));
        }
    }
  }
}
