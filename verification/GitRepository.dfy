/** What the worktree tool reads and changes of a Git repository. */
module GitRepository {
  import opened Wrappers
  import opened Slugs

  /** A commit holds its parents, so the commit graph has no cycles. */
  datatype Commit = Commit(hash: nat, parents: seq<Commit>)

  datatype Head = OnBranch(branch: string) | Detached(commit: Commit)

  datatype Worktree = Worktree(path: Path, head: Head)

  /** Local branches, remote-tracking branches, the branches at the remote, checkouts, and the disk. */
  datatype Repo = Repo(
    branches: map<string, Commit>,
    tracking: map<string, Commit>,
    remote: map<string, Commit>,
    worktrees: seq<Worktree>,
    files: set<Path>,
    dirty: set<Path>)

  // ----- ancestry -----

  function Ancestors(c: Commit): set<Commit>
    decreases c, 0
  {
    {c} + AncestorsOfAll(c.parents)
  }

  function AncestorsOfAll(cs: seq<Commit>): set<Commit>
    decreases cs, 1
  {
    if cs == [] then {} else Ancestors(cs[0]) + AncestorsOfAll(cs[1..])
  }

  function Height(c: Commit): (h: nat)
    decreases c, 0
  {
    1 + HeightOfAll(c.parents)
  }

  function HeightOfAll(cs: seq<Commit>): nat
    decreases cs, 1
  {
    if cs == [] then 0 else Height(cs[0]) + HeightOfAll(cs[1..])
  }

  lemma {:induction false} AncestorOfAll(cs: seq<Commit>, a: Commit)
    requires a in AncestorsOfAll(cs)
    ensures Height(a) <= HeightOfAll(cs)
    ensures Ancestors(a) <= AncestorsOfAll(cs)
    decreases cs, 1
  {
    if a in Ancestors(cs[0]) {
      AncestorIsLower(cs[0], a);
    } else {
      AncestorOfAll(cs[1..], a);
    }
  }

  /** Ancestry is transitive, and a proper ancestor is strictly lower. */
  lemma {:induction false} AncestorIsLower(c: Commit, a: Commit)
    requires a in Ancestors(c)
    ensures Height(a) < Height(c) || a == c
    ensures Ancestors(a) <= Ancestors(c)
    decreases c, 0
  {
    if a != c {
      AncestorOfAll(c.parents, a);
    }
  }

  lemma MutualAncestors(a: Commit, b: Commit)
    requires a in Ancestors(b) && b in Ancestors(a)
    ensures a == b
  {
    AncestorIsLower(b, a);
    AncestorIsLower(a, b);
  }

  /** `git rev-list --left-right --count a...b`, left side: commits of `a` that `b` does not have. */
  function OnlyIn(a: Commit, b: Commit): nat {
    |Ancestors(a) - Ancestors(b)|
  }

  lemma OnlyInIsZero(a: Commit, b: Commit)
    ensures OnlyIn(a, b) == 0 <==> a in Ancestors(b)
  {
    var extra := Ancestors(a) - Ancestors(b);
    if a in Ancestors(b) {
      AncestorIsLower(b, a);
      assert extra == {};
    } else {
      assert a in extra;
    }
  }

  // ----- worktrees -----

  function Find(worktrees: seq<Worktree>, path: Path): (r: Option<Worktree>)
    ensures r.Some? ==> r.value.path == path && r.value in worktrees
    ensures r.None? <==> forall w :: w in worktrees ==> w.path != path
  {
    if worktrees == [] then None
    else if worktrees[0].path == path then Some(worktrees[0])
    else Find(worktrees[1..], path)
  }

  /** `git rev-parse --show-toplevel`: the innermost checkout around a directory. */
  function TopLevel(worktrees: seq<Worktree>, cwd: Path): (r: Option<Worktree>)
    ensures r.Some? ==> r.value in worktrees && IsRelativeTo(cwd, r.value.path)
    ensures forall w :: w in worktrees && IsRelativeTo(cwd, w.path) ==> r.Some? && |w.path| <= |r.value.path|
  {
    if worktrees == [] then None
    else
      var rest := TopLevel(worktrees[1..], cwd);
      if IsRelativeTo(cwd, worktrees[0].path) && (rest.None? || |rest.value.path| <= |worktrees[0].path|)
      then Some(worktrees[0]) else rest
  }

  ghost predicate DistinctPaths(worktrees: seq<Worktree>) {
    forall i, j :: 0 <= i < j < |worktrees| ==> worktrees[i].path != worktrees[j].path
  }

  lemma TopLevelAtRoot(worktrees: seq<Worktree>, w: Worktree)
    requires DistinctPaths(worktrees) && w in worktrees
    ensures TopLevel(worktrees, w.path) == Some(w)
  {
    var top := TopLevel(worktrees, w.path).value;
    assert top.path == w.path;
  }

  lemma {:induction false} TopLevelSnoc(worktrees: seq<Worktree>, w: Worktree, cwd: Path)
    requires !IsRelativeTo(cwd, w.path)
    ensures TopLevel(worktrees + [w], cwd) == TopLevel(worktrees, cwd)
  {
    if worktrees == [] {
      assert worktrees + [w] == [w] && [w][1..] == [];
    } else {
      assert (worktrees + [w])[1..] == worktrees[1..] + [w];
      TopLevelSnoc(worktrees[1..], w, cwd);
    }
  }

  function CurrentBranch(w: Worktree): string {
    if w.head.OnBranch? then w.head.branch else ""
  }

  predicate CheckedOut(repo: Repo, branch: string) {
    exists w :: w in repo.worktrees && w.head == OnBranch(branch)
  }

  predicate EndsWith(s: string, suffix: string) {
    |suffix| <= |s| && s[|s| - |suffix|..] == suffix
  }

  /** `git ls-remote --heads origin branch` matches whole trailing components, not only the full name. */
  predicate ListedAtRemote(repo: Repo, branch: string) {
    exists h :: h in repo.remote && (h == branch || EndsWith(h, "/" + branch))
  }

  // ----- commands; `None` is a failure, and `succeeds` stands for the reasons not modelled -----

  function Fetch(repo: Repo, branch: string, succeeds: bool): Option<Repo> {
    if succeeds && branch in repo.remote
    then Some(repo.(tracking := repo.tracking[branch := repo.remote[branch]])) else None
  }

  function AddWorktree(repo: Repo, path: Path, branch: string, succeeds: bool): Option<Repo> {
    if succeeds && branch in repo.branches && !CheckedOut(repo, branch) && Find(repo.worktrees, path).None?
    then Some(repo.(worktrees := repo.worktrees + [Worktree(path, OnBranch(branch))], files := repo.files + {path}))
    else None
  }

  function AddWorktreeWithBranch(repo: Repo, path: Path, branch: string, start: string, succeeds: bool): Option<Repo> {
    if start !in repo.tracking || branch in repo.branches then None
    else AddWorktree(repo.(branches := repo.branches[branch := repo.tracking[start]]), path, branch, succeeds)
  }

  /** `path.parent.mkdir(parents=True, exist_ok=True)` */
  function MakeParents(repo: Repo, path: Path): Repo {
    repo.(files := repo.files + set k | 0 <= k < |path| :: path[..k])
  }
}
