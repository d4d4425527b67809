/** The filesystem collaborator, abstracted to a map from absolute path to
    the node stored there. Ownership, permissions and the real path
    resolution of the operating system are not part of it. */
module FileSystem {
  import opened Strings

  datatype Node = File(contents: string) | Dir | Link(target: string)

  /** path -> node */
  type Tree = map<string, Node>

  /** file_exists(): something is stored at p, and a symbolic link there
      leads to something; a dangling link does not exist. */
  predicate Exists(fs: Tree, p: string)
  {
    p in fs && (fs[p].Link? ==> fs[p].target in fs)
  }

  /** get(): the contents of a regular file, "" when there is none (PHP's
      false reads as "" in the string functions that consume it). */
  function Get(fs: Tree, p: string): string
  {
    if p in fs && fs[p].File? then fs[p].contents else ""
  }

  /** A regular file is stored at p. */
  predicate IsFile(fs: Tree, p: string)
  {
    p in fs && fs[p].File?
  }

  /** putAsUser(): the file at p now holds c. */
  function Put(fs: Tree, p: string, c: string): Tree
  {
    fs[p := File(c)]
  }

  /** appendAsUser(): c is added at the end of the file, which is created
      when it did not exist. */
  function Append(fs: Tree, p: string, c: string): Tree
  {
    fs[p := File(Get(fs, p) + c)]
  }

  /** copyAsUser(): copies the regular file at `from` to `to`; a source that
      is not a regular file makes the copy fail and nothing changes. */
  function Copy(fs: Tree, from: string, to: string): Tree
  {
    if from in fs && fs[from].File? then fs[to := fs[from]] else fs
  }

  /** unlink(): whatever is at p is gone. */
  function Unlink(fs: Tree, p: string): Tree
  {
    fs - {p}
  }

  /** ensureDirExists(): creates the directory when nothing is stored at p. */
  function EnsureDir(fs: Tree, p: string): Tree
  {
    if p in fs then fs else fs[p := Dir]
  }

  /** symlinkAsUser(): p is now a symbolic link to target. */
  function Symlink(fs: Tree, target: string, p: string): Tree
  {
    fs[p := Link(target)]
  }

  /** realpath(): a link resolves to its target when that exists, anything
      else to itself; a missing path or a dangling link resolves to nothing. */
  function RealPath(fs: Tree, p: string): (r: Option<string>)
    ensures r.Some? ==> r.value in fs
    ensures r.Some? <==> Exists(fs, p)
  {
    if p !in fs then None
    else if fs[p].Link? then (if fs[p].target in fs then Some(fs[p].target) else None)
    else Some(p)
  }

  /** Four unlinks remove the four paths. */
  lemma UnlinkFour(fs: Tree, a: string, b: string, c: string, d: string)
    ensures Unlink(Unlink(Unlink(Unlink(fs, a), b), c), d) == fs - {a, b, c, d}
  {
  }

  /** Writes to paths that are then removed leave no trace. */
  lemma WritesThenRemove(fs: Tree, ks: set<string>, a: string, b: string, c: string, d: string,
                         va: Node, vb: Node, vc: Node, vd: Node)
    requires a in ks && b in ks && c in ks && d in ks
    ensures fs[a := va][b := vb][c := vc][d := vd] - ks == fs - ks
  {
  }

  /** Removing written paths and writing them again restores the map. */
  lemma RewriteRemoved(fs: Tree, ks: set<string>, a: string, b: string, c: string, d: string,
                       va: Node, vb: Node, vc: Node, vd: Node)
    requires ks <= {a, b, c, d}
    ensures var m := fs[a := va][b := vb][c := vc][d := vd];
      (m - ks)[a := va][b := vb][c := vc][d := vd] == m
  {
  }

  lemma EnsureDirThenRemove(fs: Tree, p: string, ks: set<string>)
    requires p !in ks
    ensures EnsureDir(fs, p) - ks == EnsureDir(fs - ks, p)
  {
  }

  datatype Option<T> = None | Some(value: T)

  /** p names a direct entry of directory dir. */
  predicate IsEntryPath(dir: string, p: string)
  {
    |p| > |dir| + 1 && p[..|dir| + 1] == dir + "/" && '/' !in p[|dir| + 1..]
  }

  /** The names of the direct entries of dir. */
  function Entries(fs: Tree, dir: string): set<string>
  {
    set p | p in fs && IsEntryPath(dir, p) :: p[|dir| + 1..]
  }

  lemma EntriesMembership(fs: Tree, dir: string, n: string)
    ensures n in Entries(fs, dir) <==> n != [] && '/' !in n && dir + "/" + n in fs
  {
    var p := dir + "/" + n;
    if n != [] && '/' !in n && p in fs {
      assert p[..|dir| + 1] == dir + "/" && p[|dir| + 1..] == n;
      assert IsEntryPath(dir, p);
    }
    if n in Entries(fs, dir) {
      var p' :| p' in fs && IsEntryPath(dir, p') && p'[|dir| + 1..] == n;
      assert p' == p'[..|dir| + 1] + p'[|dir| + 1..];
    }
  }

  /** names is what a directory scan of dir may return: every entry once,
      in an order the model leaves open. */
  ghost predicate IsListing(fs: Tree, dir: string, names: seq<string>)
  {
    NoDups(names) && forall n :: n in names <==> n in Entries(fs, dir)
  }

  /** scandir() without "." and "..": the entries of dir, each once, in an
      order the model does not fix. */
  method ScanDir(fs: Tree, dir: string) returns (names: seq<string>)
    ensures IsListing(fs, dir, names)
  {
    var all := Entries(fs, dir);
    var rest := all;
    names := [];
    while rest != {}
      invariant rest <= all
      invariant NoDups(names)
      invariant forall n :: n in names <==> n in all && n !in rest
      decreases rest
    {
      var n :| n in rest;
      names := names + [n];
      rest := rest - {n};
    }
  }
}
