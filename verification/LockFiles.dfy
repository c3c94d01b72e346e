/**
 extract_IF_file_for and its helpers (aset_CCcc/src/SET_multiple_iffs.c) as one process runs
 them: the names they build and the files they test, create and remove.
 */
module LockFiles {

  predicate IsSlash(c: char) {
    c == '/' || c == '\\'
  }

  function ToLower(c: char): char {
    if 'A' <= c <= 'Z' then c - 'A' + 'a' else c
  }

  /** convert_to_lower_case, unless preserve_filename_case is set */
  function Fold(s: string, preserve: bool): (r: string)
    ensures |r| == |s|
  {
    if preserve then s else seq(|s|, i requires 0 <= i < |s| => ToLower(s[i]))
  }

  /** get_PSET_or_IF_filename, where the logical name is the path itself */
  function PsetName(base: string, path: string, preserve: bool): string {
    Fold(base + (if path == "" || !IsSlash(path[0]) then "/" else "") + path + ".pset", preserve)
  }

  /** The ".iff" is appended to the name that has been folded already. */
  function IfName(base: string, path: string, preserve: bool): string {
    PsetName(base, path, preserve) + ".iff"
  }

  function LockName(iff: string): string {
    iff + ".lck"
  }

  lemma FoldAppend(a: string, b: string, preserve: bool)
    ensures Fold(a + b, preserve) == Fold(a, preserve) + Fold(b, preserve)
  {
  }

  /** Case is folded, if at all, letter by letter from 'A' to 'Z'. */
  lemma FoldIs(s: string, preserve: bool, i: nat)
    requires i < |s|
    ensures Fold(s, preserve)[i] ==
      if !preserve && 'A' <= s[i] <= 'Z' then "abcdefghijklmnopqrstuvwxyz"[(s[i] - 'A') as int] else s[i]
  {
  }

  /** The names of the three files of a path: each is the one before with a further ending. */
  lemma NamesAre(base: string, path: string, preserve: bool)
    ensures var pset := PsetName(base, path, preserve);
      && pset == Fold(base, preserve)
               + (if path != "" && (path[0] == '/' || path[0] == '\\') then "" else "/")
               + Fold(path, preserve) + ".pset"
      && IfName(base, path, preserve) == pset + ".iff"
      && LockName(IfName(base, path, preserve)) == pset + ".iff.lck"
  {
    var slash := if path == "" || !IsSlash(path[0]) then "/" else "";
    FoldAppend(base + slash + path, ".pset", preserve);
    FoldAppend(base + slash, path, preserve);
    FoldAppend(base, slash, preserve);
    EndingsKept(preserve);
    var pset := PsetName(base, path, preserve);
    assert ".iff" + ".lck" == ".iff.lck";
    assert pset + ".iff" + ".lck" == pset + (".iff" + ".lck");
  }

  lemma EndingsKept(preserve: bool)
    ensures Fold("/", preserve) == "/" && Fold("", preserve) == "" && Fold(".pset", preserve) == ".pset"
  {
  }

  /** Different absolute paths (up to case, if case is folded) have different IF and lock files. */
  lemma NamesApart(base: string, p: string, q: string, preserve: bool)
    requires p != "" && q != "" && IsSlash(p[0]) && IsSlash(q[0])
    ensures LockName(IfName(base, p, preserve)) == LockName(IfName(base, q, preserve))
       <==> Fold(p, preserve) == Fold(q, preserve)
  {
    var end := Fold(".pset", preserve) + ".iff" + ".lck";
    NameParts(base, p, preserve);
    NameParts(base, q, preserve);
    if LockName(IfName(base, p, preserve)) == LockName(IfName(base, q, preserve)) {
      MiddleIs(Fold(base, preserve), Fold(p, preserve), Fold(q, preserve), end);
    }
  }

  lemma NameParts(base: string, p: string, preserve: bool)
    requires p != "" && IsSlash(p[0])
    ensures LockName(IfName(base, p, preserve))
         == Fold(base, preserve) + Fold(p, preserve) + (Fold(".pset", preserve) + ".iff" + ".lck")
  {
    assert base + "" + p + ".pset" == base + (p + ".pset");
    FoldAppend(base, p + ".pset", preserve);
    FoldAppend(p, ".pset", preserve);
  }

  lemma MiddleIs(a: string, p: string, q: string, end: string)
    requires a + p + end == a + q + end
    ensures p == q
  {
    assert |p| == |q|;
    assert p == (a + p + end)[|a|..|a| + |p|] && q == (a + q + end)[|a|..|a| + |q|];
  }

  /** The names of the files that exist. */
  class FileSystem {
    var files: set<string>

    constructor (files: set<string>)
      ensures this.files == files
    {
      this.files := files;
    }

    /** create_lock_file_for; the directory is made in at most two attempts */
    method CreateLockFileFor(iff: string, firstMkdir: bool, secondMkdir: bool) returns (ok: bool)
      modifies this
      ensures ok <==> LockName(iff) !in old(files) && (firstMkdir || secondMkdir)
      ensures files == if ok then old(files) + {LockName(iff)} else old(files)
    {
      ok := false;
      if LockName(iff) !in files {
        if !firstMkdir { ok := secondMkdir; } else { ok := true; }
        if ok {
          if LockName(iff) !in files {
            files := files + {LockName(iff)};
          } else {
            ok := false;
          }
        }
      }
    }

    /** remove_lock_file_for */
    method RemoveLockFileFor(iff: string) returns (removed: bool)
      modifies this
      ensures removed <==> LockName(iff) in old(files)
      ensures files == old(files) - {LockName(iff)}
    {
      removed := LockName(iff) in files;
      files := files - {LockName(iff)};
    }

    /** extract_IF_file_for */
    method ExtractIFFileFor(base: string, path: string, preserve: bool, firstMkdir: bool, secondMkdir: bool)
      returns (ok: bool, ifFilename: string)
      modifies this
      ensures ifFilename == IfName(base, path, preserve)
      ensures ok <==> PsetName(base, path, preserve) !in old(files) && ifFilename !in old(files)
                      && LockName(ifFilename) !in old(files) && (firstMkdir || secondMkdir)
      ensures files == if ok then old(files) + {LockName(ifFilename)} else old(files)
    {
      ok := false;
      var tmp := PsetName(base, path, preserve);
      ifFilename := tmp + ".iff";
      if tmp !in files {
        if ifFilename !in files {
          ok := CreateLockFileFor(ifFilename, firstMkdir, secondMkdir);
        }
      }
    }
  }
}
