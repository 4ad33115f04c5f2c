/**
  The agent-worktree tool: `sync-main`, `new`, `guard` and `ensure` as steps on the repository. The
  protected clone and the worktree root are policy; both are resolved paths.
*/
module AgentWorktree {
  import opened Wrappers
  import opened Text
  import opened Slugs
  import opened GitRepository

  const MAIN: string := "main"

  datatype Policy = Policy(mainClone: Path, root: Path)

  datatype Args = Args(agent: string, task: string, branch: string, path: Option<Path>, noSync: bool)

  /** Which Git commands fail for reasons of their own: network, hooks, permissions. */
  datatype Env = Env(fetches: bool, merges: bool, adds: bool)

  datatype Error =
    | NoMainClone | NotARepoRoot | NotInRepository
    | WrongBranch | LocalChanges | LocalCommits(n: nat) | GitFailed
    | MissingArgument | NoSlug | BranchWithoutSlash | BranchOfOtherAgent
    | InsideMainClone | OutsideRoot | NotAgentTask | PathExists

  datatype Report = Synced | Created(path: Path) | AlreadyCompliant(path: Path) | Reused(path: Path)

  datatype Ran = Ran(repo: Repo, result: Result<Report, Error>)

  datatype Failing =
    | IsMainClone | OnMainBranch | IsDetached | NotUnderRoot | NotTwoParts | BranchNotNamed | AgentMismatch

  // ----- require_main_clone and guard -----

  function MainCloneError(repo: Repo, policy: Policy): Option<Error> {
    if policy.mainClone !in repo.files then Some(NoMainClone)
    else match TopLevel(repo.worktrees, policy.mainClone)
         case None => Some(NotInRepository)
         case Some(w) => if w.path != policy.mainClone then Some(NotARepoRoot) else None
  }

  /** The failures of the place, of which there is at most one. */
  function PlaceFailures(policy: Policy, path: Path, branch: string): seq<Failing> {
    if !IsRelativeTo(path, policy.root) then [NotUnderRoot]
    else if |path| != |policy.root| + 2 then [NotTwoParts]
    else if branch == "" then []
    else if '/' !in branch then [BranchNotNamed]
    else if path[|policy.root|] != BeforeSlash(branch) then [AgentMismatch]
    else []
  }

  function GuardFailures(policy: Policy, current: Worktree): seq<Failing> {
    var branch := CurrentBranch(current);
    (if current.path == policy.mainClone then [IsMainClone] else []) +
    (if branch == MAIN then [OnMainBranch] else []) +
    (if branch == "" then [IsDetached] else []) +
    PlaceFailures(policy, current.path, branch)
  }

  function Guard(repo: Repo, policy: Policy, cwd: Path): Result<seq<Failing>, Error> {
    match TopLevel(repo.worktrees, cwd)
    case None => Failure(NotInRepository)
    case Some(current) =>
      match MainCloneError(repo, policy)
      case Some(e) => Failure(e)
      case None => Success(GuardFailures(policy, current))
  }

  /** The policy: <root>/<agent>/<task> on a branch <agent>/..., and not the protected clone. */
  ghost predicate Compliant(policy: Policy, w: Worktree) {
    && w.path != policy.mainClone
    && IsRelativeTo(w.path, policy.root) && |w.path| == |policy.root| + 2
    && w.head.OnBranch?
    && exists rest :: w.head.branch == w.path[|policy.root|] + "/" + rest && '/' !in w.path[|policy.root|]
  }

  /** What the tool promises of the worktrees it creates: compliant, and not inside the protected clone either. */
  ghost predicate InPlace(policy: Policy, w: Worktree) {
    Compliant(policy, w) && !IsRelativeTo(w.path, policy.mainClone)
  }

  lemma BeforeSlashIs(branch: string)
    requires '/' in branch
    ensures '/' !in BeforeSlash(branch)
    ensures exists rest :: branch == BeforeSlash(branch) + "/" + rest
  {
    var n := SlashAt(branch);
    assert n < |branch|;
    assert branch == BeforeSlash(branch) + "/" + branch[n + 1..];
  }

  lemma PrefixIsBeforeSlash(agent: string, rest: string)
    requires '/' !in agent
    ensures '/' in agent + "/" + rest && BeforeSlash(agent + "/" + rest) == agent
  {
    var s := agent + "/" + rest;
    assert s[|agent|] == '/';
    assert forall i :: 0 <= i < |agent| ==> s[i] == agent[i] && agent[i] in agent;
    assert SlashAt(s) == |agent|;
  }

  /** The guard reports nothing exactly on compliant checkouts. */
  lemma GuardPassesIffCompliant(policy: Policy, w: Worktree)
    ensures GuardFailures(policy, w) == [] <==> Compliant(policy, w)
  {
    var branch := CurrentBranch(w);
    if Compliant(policy, w) {
      var agent := w.path[|policy.root|];
      var rest :| branch == agent + "/" + rest && '/' !in agent;
      PrefixIsBeforeSlash(agent, rest);
      assert forall i :: 0 <= i < |MAIN| ==> MAIN[i] != '/';
    } else if '/' in branch {
      BeforeSlashIs(branch);
    }
  }

  function Number(f: Failing): nat {
    match f
    case IsMainClone => 0
    case OnMainBranch => 1
    case IsDetached => 2
    case NotUnderRoot => 3
    case NotTwoParts => 4
    case BranchNotNamed => 5
    case AgentMismatch => 6
  }

  predicate IsInPlace(policy: Policy, path: Path) {
    IsRelativeTo(path, policy.root) && |path| == |policy.root| + 2
  }

  /** The branch is named after the agent, which is what stands before its first slash. */
  ghost predicate IsNamedAfter(branch: string, agent: string) {
    '/' !in agent && agent + "/" <= branch
  }

  lemma BeforeSlashIff(branch: string, agent: string)
    requires '/' in branch
    ensures BeforeSlash(branch) == agent <==> IsNamedAfter(branch, agent)
  {
    BeforeSlashIs(branch);
    var n := SlashAt(branch);
    assert branch == BeforeSlash(branch) + "/" + branch[n + 1..];
    if IsNamedAfter(branch, agent) {
      PrefixIsBeforeSlash(agent, branch[|agent| + 1..]);
      assert branch == agent + "/" + branch[|agent| + 1..];
    }
  }

  lemma PlaceFailuresAre(policy: Policy, path: Path, branch: string)
    ensures var failures := PlaceFailures(policy, path, branch);
            && |failures| <= 1
            && (NotUnderRoot in failures <==> !(policy.root <= path))
            && (NotTwoParts in failures <==> policy.root <= path && |path| != |policy.root| + 2)
            && (BranchNotNamed in failures <==> IsInPlace(policy, path) && branch != "" && '/' !in branch)
            && (AgentMismatch in failures <==>
                  IsInPlace(policy, path) && '/' in branch && !IsNamedAfter(branch, path[|policy.root|]))
            && forall f :: f in failures ==> Number(f) >= 3
  {
    hide BeforeSlash, IsNamedAfter;
    if IsInPlace(policy, path) && '/' in branch {
      BeforeSlashIff(branch, path[|policy.root|]);
    }
  }

  /** Which failures the guard reports, and that each is reported once, in this order. */
  lemma GuardFailuresAre(policy: Policy, w: Worktree)
    ensures var failures, branch := GuardFailures(policy, w), CurrentBranch(w);
            && (IsMainClone in failures <==> w.path == policy.mainClone)
            && (OnMainBranch in failures <==> branch == "main")
            && (IsDetached in failures <==> branch == "")
            && (NotUnderRoot in failures <==> !(policy.root <= w.path))
            && (NotTwoParts in failures <==> policy.root <= w.path && |w.path| != |policy.root| + 2)
            && (BranchNotNamed in failures <==> IsInPlace(policy, w.path) && branch != "" && '/' !in branch)
            && (AgentMismatch in failures <==>
                  IsInPlace(policy, w.path) && '/' in branch && !IsNamedAfter(branch, w.path[|policy.root|]))
            && forall i, j :: 0 <= i < j < |failures| ==> Number(failures[i]) < Number(failures[j])
  {
    hide PlaceFailures, IsInPlace, IsNamedAfter;
    var branch := CurrentBranch(w);
    PlaceFailuresAre(policy, w.path, branch);
    var clone := if w.path == policy.mainClone then [IsMainClone] else [];
    var main := if branch == MAIN then [OnMainBranch] else [];
    var detached, place := if branch == "" then [IsDetached] else [], PlaceFailures(policy, w.path, branch);
    assert GuardFailures(policy, w) == clone + main + detached + place;
    hide GuardFailures, CurrentBranch;
  }

  // ----- sync_main -----

  function SyncMain(repo: Repo, policy: Policy, env: Env): Ran {
    match MainCloneError(repo, policy)
    case Some(e) => Ran(repo, Failure(e))
    case None =>
      var w := TopLevel(repo.worktrees, policy.mainClone).value;
      if CurrentBranch(w) != MAIN then Ran(repo, Failure(WrongBranch))
      else if policy.mainClone in repo.dirty then Ran(repo, Failure(LocalChanges))
      else
        match Fetch(repo, MAIN, env.fetches)
        case None => Ran(repo, Failure(GitFailed))
        case Some(fetched) =>
          if MAIN !in fetched.branches then Ran(fetched, Failure(GitFailed))
          else
            var head, origin := fetched.branches[MAIN], fetched.tracking[MAIN];
            if OnlyIn(head, origin) != 0 then Ran(fetched, Failure(LocalCommits(OnlyIn(head, origin))))
            else if OnlyIn(origin, head) == 0 then Ran(fetched, Success(Synced))
            else if !env.merges then Ran(fetched, Failure(GitFailed))
            else Ran(fetched.(branches := fetched.branches[MAIN := origin]), Success(Synced))
  }

  /** The clone is on a clean main that the remote's main contains. */
  ghost predicate CanFastForward(repo: Repo, policy: Policy) {
    && MainCloneError(repo, policy).None?
    && CurrentBranch(TopLevel(repo.worktrees, policy.mainClone).value) == MAIN
    && policy.mainClone !in repo.dirty
    && MAIN in repo.branches && MAIN in repo.remote
    && repo.branches[MAIN] in Ancestors(repo.remote[MAIN])
  }

  /**
    A successful sync leaves main at the remote's main, having only added commits, and touches
    nothing else but the tracking branch; it succeeds exactly when the clone can fast-forward and
    Git does not fail.
  */
  lemma SyncMainIs(repo: Repo, policy: Policy, env: Env)
    ensures var ran := SyncMain(repo, policy, env);
            && (ran.result.Success? <==>
                  && CanFastForward(repo, policy) && env.fetches
                  && (env.merges || repo.branches[MAIN] == repo.remote[MAIN]))
            && (ran.result.Success? ==>
                  && ran.result.value == Synced
                  && ran.repo == repo.(branches := repo.branches[MAIN := repo.remote[MAIN]],
                                       tracking := repo.tracking[MAIN := repo.remote[MAIN]])
                  && Ancestors(repo.branches[MAIN]) <= Ancestors(ran.repo.branches[MAIN]))
            && (ran.result.Failure? ==>
                  ran.repo == repo ||
                  (MAIN in repo.remote && ran.repo == repo.(tracking := repo.tracking[MAIN := repo.remote[MAIN]])))
  {
    if MAIN in repo.branches && MAIN in repo.remote {
      var head, origin := repo.branches[MAIN], repo.remote[MAIN];
      OnlyInIsZero(head, origin);
      OnlyInIsZero(origin, head);
      if head in Ancestors(origin) {
        AncestorIsLower(origin, head);
        if origin in Ancestors(head) {
          MutualAncestors(head, origin);
          assert repo.branches[MAIN := origin] == repo.branches;
        }
      }
      if head == origin {
        assert head in Ancestors(origin);
      }
    }
  }

  /** What each error of the sync, after the checks of the clone, says of the repository. */
  lemma SyncFailureMeans(repo: Repo, policy: Policy, env: Env)
    requires MainCloneError(repo, policy).None?
    ensures var branch := CurrentBranch(TopLevel(repo.worktrees, policy.mainClone).value);
            var result, clean := SyncMain(repo, policy, env).result, policy.mainClone !in repo.dirty;
            result.Failure? ==>
              && (result.error == WrongBranch <==> branch != "main")
              && (result.error == LocalChanges <==> branch == "main" && !clean)
              && (result.error.LocalCommits? ==>
                    && branch == "main" && clean && MAIN in repo.branches && MAIN in repo.remote
                    && result.error.n == |Ancestors(repo.branches[MAIN]) - Ancestors(repo.remote[MAIN])| > 0)
              && (result.error == GitFailed ==>
                    && branch == "main" && clean
                    && (!env.fetches || !env.merges || MAIN !in repo.remote || MAIN !in repo.branches))
              && (branch == "main" && clean ==> result.error == GitFailed || result.error.LocalCommits?)
  {
    hide Ancestors;
  }

  /** What each error says that the checks of the protected clone give. */
  lemma MainCloneErrorMeans(repo: Repo, policy: Policy)
    ensures match MainCloneError(repo, policy)
            case None => policy.mainClone in repo.files && exists w :: w in repo.worktrees && w.path == policy.mainClone
            case Some(NoMainClone) => policy.mainClone !in repo.files
            case Some(NotInRepository) => forall w :: w in repo.worktrees ==> !(w.path <= policy.mainClone)
            case Some(NotARepoRoot) => forall w :: w in repo.worktrees ==> w.path != policy.mainClone
            case _ => false
  {
  }

  // ----- create_worktree -----

  datatype Plan = Plan(path: Path, branch: string)

  /** All checks of `create_worktree` up to the sync. */
  function PlanWorktree(repo: Repo, policy: Policy, args: Args): Result<Plan, Error> {
    match MainCloneError(repo, policy)
    case Some(e) => Failure(e)
    case None =>
      var agent := Slugify(args.agent);
      var task := Slugify(AfterSlash(if args.task != "" then args.task else args.branch));
      if agent.None? || task.None? then Failure(NoSlug)
      else
        var branch := if args.branch != "" then args.branch else agent.value + "/" + task.value;
        var path := ResolvePath(if args.path.Some? then args.path.value else policy.root + [agent.value, task.value]);
        if '/' !in branch then Failure(BranchWithoutSlash)
        else if BeforeSlash(branch) != agent.value then Failure(BranchOfOtherAgent)
        else if IsRelativeTo(path, policy.mainClone) then Failure(InsideMainClone)
        else if !IsRelativeTo(path, policy.root) then Failure(OutsideRoot)
        else if |path| != |policy.root| + 2 || path[|policy.root|] != agent.value then Failure(NotAgentTask)
        else if path in repo.files then Failure(PathExists)
        else Success(Plan(path, branch))
  }

  /** The last part of `create_worktree`: the directory and the three ways of adding the worktree. */
  function AddPlanned(repo: Repo, plan: Plan, env: Env): Ran {
    var made := MakeParents(repo, plan.path);
    var added := if plan.branch in repo.branches then AddWorktree(made, plan.path, plan.branch, env.adds)
                 else if ListedAtRemote(repo, plan.branch)
                 then AddWorktreeWithBranch(made, plan.path, plan.branch, plan.branch, env.adds)
                 else AddWorktreeWithBranch(made, plan.path, plan.branch, MAIN, env.adds);
    match added
    case None => Ran(made, Failure(GitFailed))
    case Some(r) => Ran(r, Success(Created(plan.path)))
  }

  function CreateWorktree(repo: Repo, policy: Policy, args: Args, env: Env): Ran {
    match PlanWorktree(repo, policy, args)
    case Failure(e) => Ran(repo, Failure(e))
    case Success(plan) =>
      if args.noSync then AddPlanned(repo, plan, env)
      else
        var synced := SyncMain(repo, policy, env);
        if synced.result.Failure? then synced else AddPlanned(synced.repo, plan, env)
  }

  /** The branch that `create_worktree` is to check out. */
  function WantedBranch(args: Args): string {
    if args.branch != "" then args.branch
    else
      var agent, task := Slugify(args.agent), Slugify(AfterSlash(args.task));
      if agent.None? || task.None? then "" else agent.value + "/" + task.value
  }

  /** Some branch at the remote has this one's name as its last components. */
  ghost predicate MayBeListed(repo: Repo, branch: string) {
    exists h :: h in repo.remote && EndsWith("/" + h, "/" + branch)
  }

  lemma ListedIff(repo: Repo, branch: string)
    ensures ListedAtRemote(repo, branch) <==> MayBeListed(repo, branch)
  {
    if h :| h in repo.remote && (h == branch || EndsWith(h, "/" + branch)) {
      EndsWithSlashIff(h, branch);
    }
    if h :| h in repo.remote && EndsWith("/" + h, "/" + branch) {
      EndsWithSlashIff(h, branch);
    }
  }

  lemma EndsWithSlashIff(h: string, branch: string)
    ensures EndsWith("/" + h, "/" + branch) <==> h == branch || EndsWith(h, "/" + branch)
  {
    var s, t := "/" + h, "/" + branch;
    assert |s| == |h| + 1 && |t| == |branch| + 1 && s[1..] == h && t[1..] == branch;
    if |t| < |s| {
      assert s[|s| - |t|..] == h[|h| - |t|..];
    } else if |t| == |s| {
      assert |s| - |t| == 0 && s[0..] == s;
      assert EndsWith(s, t) <==> s == t;
      if s == t {
        assert h == branch;
      }
    }
  }

  /**
    After a successful run the new checkout is on the branch asked for. A branch that was there keeps
    its commit, one listed at the remote starts where it is tracked, any other at the tracked main.
    No other branch moves but main, which the sync takes to the remote's main.
  */
  lemma CreatedBranchStands(repo: Repo, policy: Policy, args: Args, env: Env)
    requires CreateWorktree(repo, policy, args, env).result.Success?
    ensures !args.noSync ==> MAIN in repo.remote
    ensures var after, branch := CreateWorktree(repo, policy, args, env).repo, WantedBranch(args);
            var tracked := if args.noSync then repo.tracking else repo.tracking[MAIN := repo.remote[MAIN]];
            var branches := if args.noSync then repo.branches else repo.branches[MAIN := repo.remote[MAIN]];
            && after.tracking == tracked && after.remote == repo.remote && after.dirty == repo.dirty
            && after.worktrees == repo.worktrees + [Worktree(WantedPath(policy, args), OnBranch(branch))]
            && (branch in repo.branches ==> after.branches == branches)
            && (branch !in repo.branches && MayBeListed(repo, branch) ==>
                  branch in tracked && after.branches == branches[branch := tracked[branch]])
            && (branch !in repo.branches && !MayBeListed(repo, branch) ==>
                  MAIN in tracked && after.branches == branches[branch := tracked[MAIN]])
  {
    hide SyncMain, ListedAtRemote, MayBeListed, CheckedOut, MainCloneError, ResolvePath, Slugify, Find;
    var plan := PlanWorktree(repo, policy, args).value;
    PlannedBranch(repo, policy, args);
    PlanWorktreeIff(repo, policy, args);
    var base := if args.noSync then repo else SyncMain(repo, policy, env).repo;
    SyncMainIs(repo, policy, env);
    ListedIff(repo, plan.branch);
    ListedFromRemote(repo, base, plan.branch);
    AddedAtPlan(base, plan, env);
  }

  function WantedPath(policy: Policy, args: Args): Path {
    var agent, task := Slugify(args.agent), Slugify(AfterSlash(if args.task != "" then args.task else args.branch));
    if args.path.Some? then ResolvePath(args.path.value)
    else if agent.None? || task.None? then policy.root
    else ResolvePath(policy.root + [agent.value, task.value])
  }

  /** Exactly these requests pass all checks before the sync. */
  lemma PlanWorktreeIff(repo: Repo, policy: Policy, args: Args)
    ensures var branch, path := WantedBranch(args), WantedPath(policy, args);
            PlanWorktree(repo, policy, args).Success? <==>
              && MainCloneError(repo, policy).None?
              && Slugify(args.agent).Some?
              && Slugify(AfterSlash(if args.task != "" then args.task else args.branch)).Some?
              && '/' in branch && IsNamedAfter(branch, Slugify(args.agent).value)
              && !(policy.mainClone <= path) && IsInPlace(policy, path)
              && path[|policy.root|] == Slugify(args.agent).value && path !in repo.files
    ensures PlanWorktree(repo, policy, args).Success? ==>
              PlanWorktree(repo, policy, args).value == Plan(WantedPath(policy, args), WantedBranch(args))
  {
    hide Slugify, AfterSlash, ResolvePath, MainCloneError, BeforeSlash, IsNamedAfter;
    var branch := WantedBranch(args);
    if '/' in branch && Slugify(args.agent).Some? {
      BeforeSlashIff(branch, Slugify(args.agent).value);
    }
  }

  /** What each error of the checks, after those of the clone, says of the request. */
  lemma PlanFailureMeans(repo: Repo, policy: Policy, args: Args)
    requires MainCloneError(repo, policy).None? && PlanWorktree(repo, policy, args).Failure?
    ensures var branch, path := WantedBranch(args), WantedPath(policy, args);
            var agent := Slugify(args.agent);
            var task := Slugify(AfterSlash(if args.task != "" then args.task else args.branch));
            match PlanWorktree(repo, policy, args).error
            case NoSlug => agent.None? || task.None?
            case BranchWithoutSlash => '/' !in branch
            case BranchOfOtherAgent => agent.Some? && '/' in branch && !IsNamedAfter(branch, agent.value)
            case InsideMainClone => policy.mainClone <= path
            case OutsideRoot => !(policy.root <= path)
            case NotAgentTask =>
              agent.Some? && policy.root <= path && !(IsInPlace(policy, path) && path[|policy.root|] == agent.value)
            case PathExists => path in repo.files
            case _ => false
  {
    hide Slugify, AfterSlash, ResolvePath, MainCloneError, BeforeSlash, IsNamedAfter;
    var branch := WantedBranch(args);
    if '/' in branch && Slugify(args.agent).Some? {
      BeforeSlashIff(branch, Slugify(args.agent).value);
    }
  }

  /**
    `create_worktree` succeeds exactly if its checks pass, the sync does unless it is left out, Git does
    not fail, the path is not registered, and the branch is there and checked out nowhere, or can be
    started where it is tracked or at the tracked main.
  */
  lemma CreateSucceedsIff(repo: Repo, policy: Policy, args: Args, env: Env)
    ensures CreateWorktree(repo, policy, args, env).result.Success? <==>
              && PlanWorktree(repo, policy, args).Success?
              && (args.noSync || SyncMain(repo, policy, env).result.Success?)
              && env.adds && Find(repo.worktrees, WantedPath(policy, args)).None?
              && (forall w :: w in repo.worktrees ==> w.head != OnBranch(WantedBranch(args)))
              && (WantedBranch(args) in repo.branches ||
                  (if MayBeListed(repo, WantedBranch(args)) then WantedBranch(args) in repo.tracking
                   else MAIN in repo.tracking || !args.noSync))
  {
    hide SyncMain, CanFastForward, ListedAtRemote, MayBeListed, MainCloneError, ResolvePath, Slugify, Find, AfterSlash;
    if PlanWorktree(repo, policy, args).Success? {
      var plan := PlanWorktree(repo, policy, args).value;
      PlannedBranch(repo, policy, args);
      PlanWorktreeIff(repo, policy, args);
      var base := if args.noSync then repo else SyncMain(repo, policy, env).repo;
      SyncMainIs(repo, policy, env);
      ListedIff(repo, plan.branch);
      ListedFromRemote(repo, base, plan.branch);
      AddSucceedsIff(base, plan, env);
    }
  }

  lemma AddSucceedsIff(repo: Repo, plan: Plan, env: Env)
    ensures AddPlanned(repo, plan, env).result.Success? <==>
              && env.adds && Find(repo.worktrees, plan.path).None?
              && (forall w :: w in repo.worktrees ==> w.head != OnBranch(plan.branch))
              && (plan.branch in repo.branches ||
                  (if ListedAtRemote(repo, plan.branch) then plan.branch in repo.tracking else MAIN in repo.tracking))
  {
    hide ListedAtRemote, Find;
  }

  lemma PlannedBranch(repo: Repo, policy: Policy, args: Args)
    requires PlanWorktree(repo, policy, args).Success?
    ensures var branch := PlanWorktree(repo, policy, args).value.branch;
            branch == WantedBranch(args) && branch != MAIN
  {
    hide Slugify, AfterSlash, ResolvePath, MainCloneError, BeforeSlash;
    assert forall i :: 0 <= i < |MAIN| ==> MAIN[i] != '/';
  }

  lemma ListedFromRemote(a: Repo, b: Repo, branch: string)
    requires a.remote == b.remote
    ensures ListedAtRemote(a, branch) == ListedAtRemote(b, branch)
  {
  }

  lemma AddedAtPlan(repo: Repo, plan: Plan, env: Env)
    requires AddPlanned(repo, plan, env).result.Success?
    ensures var after := AddPlanned(repo, plan, env).repo;
            && after.tracking == repo.tracking && after.remote == repo.remote && after.dirty == repo.dirty
            && after.worktrees == repo.worktrees + [Worktree(plan.path, OnBranch(plan.branch))]
            && (plan.branch in repo.branches ==> after.branches == repo.branches)
            && (plan.branch !in repo.branches ==>
                  var start := if ListedAtRemote(repo, plan.branch) then plan.branch else MAIN;
                  start in repo.tracking
                  && after.branches == repo.branches[plan.branch := repo.tracking[start]])
  {
    hide ListedAtRemote, CheckedOut, Find;
  }

  // ----- ensure -----

  function Ensure(repo: Repo, policy: Policy, cwd: Path, args: Args, env: Env): Ran {
    if args.agent == "" || Strip(IsSpace, args.task) == "" then Ran(repo, Failure(MissingArgument))
    else
      match Guard(repo, policy, cwd)
      case Failure(e) => Ran(repo, Failure(e))
      case Success(failures) =>
        if failures == [] then Ran(repo, Success(AlreadyCompliant(TopLevel(repo.worktrees, cwd).value.path)))
        else
          var agent, task := Slugify(args.agent), Slugify(AfterSlash(Strip(IsSpace, args.task)));
          if agent.None? || task.None? then Ran(repo, Failure(NoSlug))
          else
            var path :=
              ResolvePath(if args.path.Some? then args.path.value else policy.root + [agent.value, task.value]);
            if Find(repo.worktrees, path).Some? then Ran(repo, Success(Reused(path)))
            else if path in repo.files then Ran(repo, Failure(PathExists))
            else
              var branch := if args.branch != "" then args.branch else agent.value + "/" + task.value;
              CreateWorktree(repo, policy, Args(agent.value, task.value, branch, args.path, args.noSync), env)
  }

  // ----- what every run keeps -----

  /** The tool's commands, and what agents, editors and the remote may do in between. */
  datatype Step =
    | Sync(env: Env)
    | New(args: Args, env: Env)
    | EnsureStep(cwd: Path, args: Args, env: Env)
    | RemoteMoved(heads: map<string, Commit>)
    | Committed(branch: string, commit: Commit)
    | Edited(dirty: set<Path>)
    | PathMade(path: Path)

  /** The repository, and the paths at which the tool reported to have created a worktree. */
  datatype World = World(repo: Repo, created: set<Path>)

  function Noted(world: World, ran: Ran): World {
    World(ran.repo,
          if ran.result.Success? && ran.result.value.Created? then world.created + {ran.result.value.path}
          else world.created)
  }

  function Next(policy: Policy, world: World, step: Step): World {
    match step
    case Sync(env) => Noted(world, SyncMain(world.repo, policy, env))
    case New(args, env) => Noted(world, CreateWorktree(world.repo, policy, args, env))
    case EnsureStep(cwd, args, env) => Noted(world, Ensure(world.repo, policy, cwd, args, env))
    case RemoteMoved(heads) => world.(repo := world.repo.(remote := heads))
    case Committed(branch, commit) =>
      if branch in world.repo.branches && world.repo.branches[branch] in Ancestors(commit)
      then world.(repo := world.repo.(branches := world.repo.branches[branch := commit])) else world
    case Edited(dirty) => world.(repo := world.repo.(dirty := dirty))
    case PathMade(path) =>
      var made := MakeParents(world.repo, path);
      world.(repo := made.(files := made.files + {path}))
  }

  function Run(policy: Policy, world: World, steps: seq<Step>): World {
    if steps == [] then world
    else Next(policy, Run(policy, world, steps[..|steps| - 1]), steps[|steps| - 1])
  }

  /** No branch is checked out twice. */
  ghost predicate BranchesOnce(worktrees: seq<Worktree>) {
    forall i, j :: 0 <= i < j < |worktrees| && worktrees[i].head.OnBranch? ==> worktrees[i].head != worktrees[j].head
  }

  ghost predicate Invariant(policy: Policy, world: World) {
    && DistinctPaths(world.repo.worktrees) && BranchesOnce(world.repo.worktrees)
    && (world.created != {} ==> MainCloneError(world.repo, policy).None?)
    && forall p :: p in world.created ==>
         exists w :: w in world.repo.worktrees && w.path == p && InPlace(policy, w)
  }

  /** What the tool may do to the repository: nothing to the checkouts, or add one compliant checkout. */
  ghost predicate OnlyAdds(policy: Policy, before: Repo, ran: Ran) {
    && before.files <= ran.repo.files
    && if ran.result.Success? && ran.result.value.Created?
       then
         && MainCloneError(before, policy).None?
         && exists w ::
              && ran.repo.worktrees == before.worktrees + [w]
              && w.path == ran.result.value.path && InPlace(policy, w)
              && Find(before.worktrees, w.path).None? && !CheckedOut(before, w.head.branch)
       else ran.repo.worktrees == before.worktrees
  }

  lemma PlanIsCompliant(repo: Repo, policy: Policy, args: Args)
    requires PlanWorktree(repo, policy, args).Success?
    ensures var plan := PlanWorktree(repo, policy, args).value;
            InPlace(policy, Worktree(plan.path, OnBranch(plan.branch)))
  {
    hide Slugify, AfterSlash, ResolvePath, MainCloneError, BeforeSlash;
    var plan := PlanWorktree(repo, policy, args).value;
    BeforeSlashIs(plan.branch);
    assert !IsRelativeTo(plan.path, policy.mainClone);
  }

  lemma AddPlannedOnlyAdds(policy: Policy, repo: Repo, plan: Plan, env: Env)
    requires MainCloneError(repo, policy).None?
    requires InPlace(policy, Worktree(plan.path, OnBranch(plan.branch)))
    ensures OnlyAdds(policy, repo, AddPlanned(repo, plan, env))
  {
    var ran := AddPlanned(repo, plan, env);
    var w := Worktree(plan.path, OnBranch(plan.branch));
    if ran.result.Success? {
      assert ran.repo.worktrees == repo.worktrees + [w];
    }
  }

  lemma PlanNeedsMainClone(repo: Repo, policy: Policy, args: Args)
    requires PlanWorktree(repo, policy, args).Success?
    ensures MainCloneError(repo, policy).None?
  {
    hide Slugify, AfterSlash, ResolvePath, BeforeSlash;
  }

  lemma {:induction false} CreateOnlyAdds(policy: Policy, repo: Repo, args: Args, env: Env)
    ensures OnlyAdds(policy, repo, CreateWorktree(repo, policy, args, env))
  {
    hide PlanWorktree, AddPlanned, SyncMain, CanFastForward;
    var planned := PlanWorktree(repo, policy, args);
    if planned.Success? {
      PlanNeedsMainClone(repo, policy, args);
      PlanIsCompliant(repo, policy, args);
      var base := if args.noSync then repo else SyncMain(repo, policy, env).repo;
      SyncMainIs(repo, policy, env);
      assert base.worktrees == repo.worktrees && base.files == repo.files;
      AddPlannedOnlyAdds(policy, base, planned.value, env);
    }
  }

  lemma MainCloneStays(policy: Policy, before: Repo, after: Repo)
    requires MainCloneError(before, policy).None?
    requires before.files <= after.files && before.worktrees <= after.worktrees
    ensures MainCloneError(after, policy).None?
  {
    var w := TopLevel(before.worktrees, policy.mainClone).value;
    assert w in after.worktrees;
  }

  lemma AddingKeepsInvariant(policy: Policy, world: World, ran: Ran)
    requires Invariant(policy, world) && OnlyAdds(policy, world.repo, ran)
    ensures Invariant(policy, Noted(world, ran))
  {
    var after := Noted(world, ran);
    if MainCloneError(world.repo, policy).None? {
      MainCloneStays(policy, world.repo, ran.repo);
    }
    if ran.result.Success? && ran.result.value.Created? {
      var w :| && ran.repo.worktrees == world.repo.worktrees + [w]
               && w.path == ran.result.value.path && InPlace(policy, w)
               && Find(world.repo.worktrees, w.path).None? && !CheckedOut(world.repo, w.head.branch);
      AddingKeepsDistinct(world.repo.worktrees, w);
      forall p | p in after.created
        ensures exists v :: v in ran.repo.worktrees && v.path == p && InPlace(policy, v)
      {
        if p == w.path {
          assert w in ran.repo.worktrees;
        } else {
          var v :| v in world.repo.worktrees && v.path == p && InPlace(policy, v);
          assert v in ran.repo.worktrees;
        }
      }
    }
  }

  lemma AddingKeepsDistinct(worktrees: seq<Worktree>, w: Worktree)
    requires DistinctPaths(worktrees) && BranchesOnce(worktrees)
    requires Find(worktrees, w.path).None? && w.head.OnBranch? && forall v :: v in worktrees ==> v.head != w.head
    ensures DistinctPaths(worktrees + [w]) && BranchesOnce(worktrees + [w])
  {
  }

  lemma {:induction false} NextKeepsInvariant(policy: Policy, world: World, step: Step)
    requires Invariant(policy, world)
    ensures Invariant(policy, Next(policy, world, step))
  {
    hide Ensure, CreateWorktree, SyncMain, CanFastForward;
    match step
    case Sync(env) =>
      SyncMainIs(world.repo, policy, env);
      AddingKeepsInvariant(policy, world, SyncMain(world.repo, policy, env));
    case New(args, env) =>
      CreateOnlyAdds(policy, world.repo, args, env);
      AddingKeepsInvariant(policy, world, CreateWorktree(world.repo, policy, args, env));
    case EnsureStep(cwd, args, env) =>
      EnsureOnlyAdds(policy, world.repo, cwd, args, env);
      AddingKeepsInvariant(policy, world, Ensure(world.repo, policy, cwd, args, env));
    case PathMade(path) =>
      if MainCloneError(world.repo, policy).None? {
        MainCloneStays(policy, world.repo, Next(policy, world, step).repo);
      }
    case _ =>
  }

  lemma {:induction false} EnsureOnlyAdds(policy: Policy, repo: Repo, cwd: Path, args: Args, env: Env)
    ensures OnlyAdds(policy, repo, Ensure(repo, policy, cwd, args, env))
  {
    hide Slugify, CreateWorktree, Guard, Strip, AfterSlash, ResolvePath;
    var agent, task := Slugify(args.agent), Slugify(AfterSlash(Strip(IsSpace, args.task)));
    if agent.Some? && task.Some? {
      var branch := if args.branch != "" then args.branch else agent.value + "/" + task.value;
      CreateOnlyAdds(policy, repo, Args(agent.value, task.value, branch, args.path, args.noSync), env);
    }
  }

  lemma {:induction false} RunKeepsInvariant(policy: Policy, world: World, steps: seq<Step>)
    requires Invariant(policy, world)
    ensures Invariant(policy, Run(policy, world, steps))
  {
    if steps != [] {
      RunKeepsInvariant(policy, world, steps[..|steps| - 1]);
      NextKeepsInvariant(policy, Run(policy, world, steps[..|steps| - 1]), steps[|steps| - 1]);
    }
  }

  /**
    Over every run: wherever one stands in a worktree that the tool has created, at its root or in any
    directory whose innermost checkout it is, the guard passes. None of them lies inside the protected
    clone, and no branch is checked out twice.
  */
  lemma {:induction false} CreatedWorktreesPassGuard(policy: Policy, repo: Repo, steps: seq<Step>, cwd: Path)
    requires DistinctPaths(repo.worktrees) && BranchesOnce(repo.worktrees)
    ensures var world := Run(policy, World(repo, {}), steps);
            var top := TopLevel(world.repo.worktrees, cwd);
            && (top.Some? && top.value.path in world.created ==> Guard(world.repo, policy, cwd) == Success([]))
            && (cwd in world.created ==> top.Some? && top.value.path == cwd)
            && (forall path :: path in world.created ==> !IsRelativeTo(path, policy.mainClone))
            && BranchesOnce(world.repo.worktrees)
  {
    RunKeepsInvariant(policy, World(repo, {}), steps);
    var world := Run(policy, World(repo, {}), steps);
    var top := TopLevel(world.repo.worktrees, cwd);
    if top.Some? && top.value.path in world.created {
      var w :| w in world.repo.worktrees && w.path == top.value.path && InPlace(policy, w);
      GuardPassesIffCompliant(policy, w);
    }
    if cwd in world.created {
      var w :| w in world.repo.worktrees && w.path == cwd && InPlace(policy, w);
      TopLevelAtRoot(world.repo.worktrees, w);
    }
  }

  // ----- main never loses a commit -----

  ghost predicate MainGrows(before: Repo, after: Repo) {
    MAIN in before.branches ==>
      MAIN in after.branches && Ancestors(before.branches[MAIN]) <= Ancestors(after.branches[MAIN])
  }

  lemma SyncGrowsMain(policy: Policy, repo: Repo, env: Env)
    ensures MainGrows(repo, SyncMain(repo, policy, env).repo)
  {
    SyncMainIs(repo, policy, env);
  }

  lemma {:induction false} CreateGrowsMain(policy: Policy, repo: Repo, args: Args, env: Env)
    ensures MainGrows(repo, CreateWorktree(repo, policy, args, env).repo)
  {
    hide PlanWorktree, SyncMain, ListedAtRemote, CheckedOut;
    SyncGrowsMain(policy, repo, env);
  }

  lemma {:induction false} EnsureGrowsMain(policy: Policy, repo: Repo, cwd: Path, args: Args, env: Env)
    ensures MainGrows(repo, Ensure(repo, policy, cwd, args, env).repo)
  {
    hide Slugify, CreateWorktree, Guard, Strip, AfterSlash, ResolvePath;
    var agent, task := Slugify(args.agent), Slugify(AfterSlash(Strip(IsSpace, args.task)));
    if agent.Some? && task.Some? {
      var branch := if args.branch != "" then args.branch else agent.value + "/" + task.value;
      CreateGrowsMain(policy, repo, Args(agent.value, task.value, branch, args.path, args.noSync), env);
    }
  }

  lemma NextGrowsMain(policy: Policy, world: World, step: Step)
    ensures MainGrows(world.repo, Next(policy, world, step).repo)
  {
    hide Ensure, CreateWorktree, SyncMain;
    match step
    case Sync(env) => SyncGrowsMain(policy, world.repo, env);
    case New(args, env) => CreateGrowsMain(policy, world.repo, args, env);
    case EnsureStep(cwd, args, env) => EnsureGrowsMain(policy, world.repo, cwd, args, env);
    case Committed(branch, commit) =>
      if branch in world.repo.branches && world.repo.branches[branch] in Ancestors(commit) {
        AncestorIsLower(commit, world.repo.branches[branch]);
      }
    case _ =>
  }

  /** Over every run the local main only gains commits, whatever the remote does. */
  lemma {:induction false} RunGrowsMain(policy: Policy, world: World, steps: seq<Step>)
    ensures MainGrows(world.repo, Run(policy, world, steps).repo)
  {
    if steps != [] {
      RunGrowsMain(policy, world, steps[..|steps| - 1]);
      NextGrowsMain(policy, Run(policy, world, steps[..|steps| - 1]), steps[|steps| - 1]);
    }
  }

  // ----- ensure -----

  ghost predicate PrefixClosed(files: set<Path>) {
    forall p, k :: p in files && 0 <= k <= |p| ==> p[..k] in files
  }

  /** `ensure` and `create_worktree` compute the same path, because slugs are fixed points without slashes. */
  lemma SlugsComputeSamePath(args: Args)
    requires Slugify(args.agent).Some? && Slugify(AfterSlash(Strip(IsSpace, args.task))).Some?
    ensures var agent, task := Slugify(args.agent).value, Slugify(AfterSlash(Strip(IsSpace, args.task))).value;
            agent != "" && task != "" && Slugify(agent) == Some(agent) && Slugify(AfterSlash(task)) == Some(task)
  {
    var taskName := AfterSlash(Strip(IsSpace, args.task));
    SlugifyIsIdempotent(args.agent);
    SlugifyIsIdempotent(taskName);
    SlugifyIs(args.agent);
    SlugifyIs(taskName);
    SlugHasNoSlash(Slugify(taskName).value);
  }

  /** The path that `ensure` looks at. */
  function EnsurePath(policy: Policy, args: Args): Option<Path> {
    var agent, task := Slugify(args.agent), Slugify(AfterSlash(Strip(IsSpace, args.task)));
    if agent.None? || task.None? then None
    else Some(ResolvePath(if args.path.Some? then args.path.value else policy.root + [agent.value, task.value]))
  }

  lemma CreatedAtPlannedPath(repo: Repo, policy: Policy, args: Args, env: Env)
    requires var r := CreateWorktree(repo, policy, args, env).result; r.Success?
    ensures CreateWorktree(repo, policy, args, env).result.value.Created?
    ensures PlanWorktree(repo, policy, args).Success?
    ensures CreateWorktree(repo, policy, args, env).result.value.path == PlanWorktree(repo, policy, args).value.path
  {
    hide PlanWorktree, SyncMain, ListedAtRemote, CheckedOut;
  }

  lemma PlannedPathIs(repo: Repo, policy: Policy, args: Args)
    requires PlanWorktree(repo, policy, args).Success? && args.task != ""
    ensures var agent, task := Slugify(args.agent), Slugify(AfterSlash(args.task));
            && agent.Some? && task.Some?
            && PlanWorktree(repo, policy, args).value.path ==
               ResolvePath(if args.path.Some? then args.path.value else policy.root + [agent.value, task.value])
    ensures PlanWorktree(repo, policy, args).value.path !in repo.files
  {
    hide Slugify, AfterSlash, ResolvePath, BeforeSlash, MainCloneError;
  }

  /** What `ensure` does after the guard has failed. */
  lemma EnsureCases(repo: Repo, policy: Policy, cwd: Path, args: Args, env: Env)
    requires Ensure(repo, policy, cwd, args, env).result.Success?
    ensures Guard(repo, policy, cwd).Success?
    ensures Guard(repo, policy, cwd).value == [] ==>
              && TopLevel(repo.worktrees, cwd).Some?
              && Ensure(repo, policy, cwd, args, env)
                 == Ran(repo, Success(AlreadyCompliant(TopLevel(repo.worktrees, cwd).value.path)))
    ensures Guard(repo, policy, cwd).value != [] ==>
              EnsurePath(policy, args).Some? &&
              var path := EnsurePath(policy, args).value;
              var ran := Ensure(repo, policy, cwd, args, env);
              if Find(repo.worktrees, path).Some? then ran == Ran(repo, Success(Reused(path)))
              else
                && ran.result == Success(Created(path)) && path !in repo.files
                && Slugify(args.agent).Some? && Slugify(AfterSlash(Strip(IsSpace, args.task))).Some?
                && var agent, task := Slugify(args.agent).value, Slugify(AfterSlash(Strip(IsSpace, args.task))).value;
                   var branch := if args.branch != "" then args.branch else agent + "/" + task;
                   ran == CreateWorktree(repo, policy, Args(agent, task, branch, args.path, args.noSync), env)
  {
    hide Slugify, CreateWorktree, Strip, AfterSlash, ResolvePath, GuardFailures, MainCloneError, PlanWorktree;
    if Guard(repo, policy, cwd).value != [] {
      SlugsComputeSamePath(args);
      var agent, task := Slugify(args.agent).value, Slugify(AfterSlash(Strip(IsSpace, args.task))).value;
      var path := EnsurePath(policy, args).value;
      if Find(repo.worktrees, path).None? && path !in repo.files {
        var branch := if args.branch != "" then args.branch else agent + "/" + task;
        var inner := Args(agent, task, branch, args.path, args.noSync);
        CreatedAtPlannedPath(repo, policy, inner, env);
        PlannedPathIs(repo, policy, inner);
      }
    }
  }

  /** The converse for reuse: a registered worktree at the path is reported, and nothing is done. */
  lemma EnsureReuses(repo: Repo, policy: Policy, cwd: Path, args: Args, env: Env)
    requires args.agent != "" && Strip(IsSpace, args.task) != ""
    requires Guard(repo, policy, cwd).Success? && Guard(repo, policy, cwd).value != []
    requires EnsurePath(policy, args).Some? && Find(repo.worktrees, EnsurePath(policy, args).value).Some?
    ensures Ensure(repo, policy, cwd, args, env) == Ran(repo, Success(Reused(EnsurePath(policy, args).value)))
  {
    hide Slugify, CreateWorktree, Strip, AfterSlash, ResolvePath, Guard;
  }

  lemma EnsureNeedsArguments(repo: Repo, policy: Policy, cwd: Path, args: Args, env: Env)
    requires Ensure(repo, policy, cwd, args, env).result.Success?
    ensures args.agent != "" && Strip(IsSpace, args.task) != ""
  {
    hide Slugify, CreateWorktree, Strip, AfterSlash, ResolvePath, Guard;
  }

  lemma RelativeMeansPrefix(path: Path, parent: Path)
    ensures IsRelativeTo(path, parent) ==> exists k :: 0 <= k <= |path| && path[..k] == parent
  {
    if IsRelativeTo(path, parent) {
      assert path[..|parent|] == parent;
    }
  }

  /** A new checkout elsewhere changes nothing for the guard in a directory that existed before. */
  lemma GuardElsewhere(before: Repo, after: Repo, policy: Policy, cwd: Path, w: Worktree)
    requires after.worktrees == before.worktrees + [w] && before.files <= after.files
    requires cwd in before.files && PrefixClosed(before.files) && w.path !in before.files
    requires Guard(before, policy, cwd).Success?
    ensures Guard(after, policy, cwd) == Guard(before, policy, cwd)
  {
    hide GuardFailures;
    assert forall k :: 0 <= k <= |cwd| ==> cwd[..k] in before.files && cwd[..k] != w.path;
    RelativeMeansPrefix(cwd, w.path);
    TopLevelSnoc(before.worktrees, w, cwd);
    MainCloneStays(policy, before, after);
  }

  /**
    Run a second time from the same non-compliant checkout, `ensure` finds the worktree of the first
    run and changes nothing, whatever Git would do.
  */
  lemma EnsureIsIdempotent(repo: Repo, policy: Policy, cwd: Path, args: Args, env: Env, later: Env)
    requires cwd in repo.files && PrefixClosed(repo.files)
    requires Guard(repo, policy, cwd).Success? && Guard(repo, policy, cwd).value != []
    requires Ensure(repo, policy, cwd, args, env).result.Success?
    ensures EnsurePath(policy, args).Some?
    ensures var first := Ensure(repo, policy, cwd, args, env);
            var path := EnsurePath(policy, args).value;
            && (first.result == Success(Created(path)) || first.result == Success(Reused(path)))
            && Ensure(first.repo, policy, cwd, args, later) == Ran(first.repo, Success(Reused(path)))
  {
    hide Ensure, Guard, EnsurePath, Strip, Compliant;
    var first := Ensure(repo, policy, cwd, args, env);
    EnsureCases(repo, policy, cwd, args, env);
    EnsureNeedsArguments(repo, policy, cwd, args, env);
    var path := EnsurePath(policy, args).value;
    if first.result.value.Created? {
      EnsureOnlyAdds(policy, repo, cwd, args, env);
      var w :| first.repo.worktrees == repo.worktrees + [w] && w.path == path && Find(repo.worktrees, w.path).None?;
      FindAppended(repo.worktrees, w);
      GuardElsewhere(repo, first.repo, policy, cwd, w);
    }
    EnsureReuses(first.repo, policy, cwd, args, later);
  }

  /** A registered worktree that `ensure` may answer with: where the policy wants it, and on a branch of its agent. */
  predicate IsFit(policy: Policy, w: Worktree) {
    && w.path != policy.mainClone
    && IsRelativeTo(w.path, policy.root) && |w.path| == |policy.root| + 2
    && '/' in CurrentBranch(w) && BeforeSlash(CurrentBranch(w)) == w.path[|policy.root|]
  }

  lemma FitIffCompliant(policy: Policy, w: Worktree)
    ensures IsFit(policy, w) <==> Compliant(policy, w)
  {
    var branch := CurrentBranch(w);
    if Compliant(policy, w) {
      var rest :| branch == w.path[|policy.root|] + "/" + rest;
      PrefixIsBeforeSlash(w.path[|policy.root|], rest);
    } else if '/' in branch {
      BeforeSlashIs(branch);
    }
  }

  /** Before `ensure` runs: the guard passes here, or what is registered at its path, if anything, is fit. */
  predicate ReadyFor(repo: Repo, policy: Policy, cwd: Path, args: Args) {
    || Guard(repo, policy, cwd) == Success([])
    || match EnsurePath(policy, args)
       case None => true
       case Some(path) => Find(repo.worktrees, path).Some? ==> IsFit(policy, Find(repo.worktrees, path).value)
  }

  /**
    `ensure` promises a compliant checkout. When it succeeds it delivers one exactly if the guard passes
    already, or there is no worktree at its path yet, or the one that is registered there is fit: it
    does not look, neither at the branch nor, with `--path`, at the place.
  */
  lemma EnsureIsCompliantIff(repo: Repo, policy: Policy, cwd: Path, args: Args, env: Env)
    requires DistinctPaths(repo.worktrees) && Ensure(repo, policy, cwd, args, env).result.Success?
    ensures var ran := Ensure(repo, policy, cwd, args, env);
            && !ran.result.value.Synced?
            && Find(ran.repo.worktrees, ran.result.value.path).Some?
            && (Compliant(policy, Find(ran.repo.worktrees, ran.result.value.path).value) <==>
                  ReadyFor(repo, policy, cwd, args))
  {
    hide Ensure, EnsurePath, GuardFailures, MainCloneError, Find, TopLevel, DistinctPaths, IsFit, Compliant;
    var ran := Ensure(repo, policy, cwd, args, env);
    EnsureCases(repo, policy, cwd, args, env);
    if ran.result.value.AlreadyCompliant? {
      var w := TopLevel(repo.worktrees, cwd).value;
      GuardPassesIffCompliant(policy, w);
      FindIs(repo.worktrees, w);
    } else if ran.result.value.Created? {
      EnsureOnlyAdds(policy, repo, cwd, args, env);
      var w :| && ran.repo.worktrees == repo.worktrees + [w]
               && w.path == ran.result.value.path && InPlace(policy, w) && Find(repo.worktrees, w.path).None?;
      FindAppended(repo.worktrees, w);
    } else {
      FitIffCompliant(policy, Find(repo.worktrees, ran.result.value.path).value);
    }
  }

  /** Without `--path` the place is always right, so that only the branch and the protected clone matter. */
  lemma DefaultPathIsInPlace(policy: Policy, args: Args)
    requires IsNormal(policy.root) && args.path.None? && EnsurePath(policy, args).Some?
    ensures var path := EnsurePath(policy, args).value;
            && IsRelativeTo(path, policy.root) && |path| == |policy.root| + 2
            && Slugify(args.agent) == Some(path[|policy.root|])
  {
    hide Slugify, Strip, AfterSlash;
    var agent, task := Slugify(args.agent).value, Slugify(AfterSlash(Strip(IsSpace, args.task))).value;
    SlugifyIsIdempotent(args.agent);
    SlugifyIsIdempotent(AfterSlash(Strip(IsSpace, args.task)));
    NormalIsFixed(policy.root + [agent, task]);
  }

  lemma FindIs(worktrees: seq<Worktree>, w: Worktree)
    requires DistinctPaths(worktrees) && w in worktrees
    ensures Find(worktrees, w.path) == Some(w)
  {
    var found := Find(worktrees, w.path).value;
  }

  lemma {:induction false} FindAppended(worktrees: seq<Worktree>, w: Worktree)
    requires Find(worktrees, w.path).None?
    ensures Find(worktrees + [w], w.path) == Some(w)
  {
    if worktrees == [] {
      assert worktrees + [w] == [w];
    } else {
      assert (worktrees + [w])[1..] == worktrees[1..] + [w];
      FindAppended(worktrees[1..], w);
    }
  }

  // Two worktrees that `ensure` reuses and the guard then rejects, beside a protected clone at /m and with
  // the root /r. The agent is "a" and its work is called "t".

  const POLICY: Policy := Policy(["m"], ["r"])

  function AgentArgs(path: Option<Path>): Args {
    Args("a", "t", "", path, false)
  }

  function RepoWith(w: Worktree): Repo {
    Repo(map[], map[], map[], [Worktree(["m"], OnBranch(MAIN)), w], {["m"], w.path}, {})
  }

  lemma LetterIsSlug(s: string)
    requires |s| == 1 && 'a' <= s[0] <= 'z'
    ensures Slugify(s) == Some(s) && Strip(IsSpace, s) == s && AfterSlash(s) == s
  {
    SlugIsFixed(s);
    StripNothing(IsSpace, s);
    SlugHasNoSlash(s);
  }

  lemma EnsurePathOfAgent(path: Option<Path>)
    requires path.Some? ==> IsNormal(path.value)
    ensures EnsurePath(POLICY, AgentArgs(path)) == Some(if path.Some? then path.value else ["r", "a", "t"])
  {
    LetterIsSlug("a");
    LetterIsSlug("t");
    hide Slugify, Strip, AfterSlash, ResolvePath;
    assert POLICY.root + ["a", "t"] == ["r", "a", "t"];
    NormalIsFixed(if path.Some? then path.value else ["r", "a", "t"]);
    assert "a" != "." && "a" != ".." && "t" != "." && "t" != ".." && "r" != "." && "r" != "..";
  }

  /** In the protected clone the guard fails, and `ensure` reuses what is registered at its path. */
  lemma EnsureReusesIn(w: Worktree, path: Option<Path>, env: Env)
    requires w.path != [] && w.path[0] != "m" && IsNormal(w.path)
    requires w.path == if path.Some? then path.value else ["r", "a", "t"]
    ensures Ensure(RepoWith(w), POLICY, ["m"], AgentArgs(path), env) == Ran(RepoWith(w), Success(Reused(w.path)))
  {
    LetterIsSlug("t");
    EnsurePathOfAgent(path);
    var repo, clone := RepoWith(w), Worktree(["m"], OnBranch(MAIN));
    assert repo.worktrees[0] == clone && repo.worktrees[1] == w;
    TopLevelAtRoot(repo.worktrees, clone);
    FindIs(repo.worktrees, w);
    assert IsMainClone in GuardFailures(POLICY, clone);
    hide Ensure, EnsurePath, Strip, GuardFailures;
    EnsureReuses(repo, POLICY, ["m"], AgentArgs(path), env);
  }

  /** A checkout left detached at the very path of the agent's work. */
  lemma EnsureCanReuseDetached(commit: Commit, env: Env)
    ensures var w := Worktree(["r", "a", "t"], Detached(commit));
            && Ensure(RepoWith(w), POLICY, ["m"], AgentArgs(None), env) == Ran(RepoWith(w), Success(Reused(w.path)))
            && !Compliant(POLICY, w)
  {
    assert "r"[0] != "m"[0];
    EnsureReusesIn(Worktree(["r", "a", "t"], Detached(commit)), None, env);
  }

  /** With `--path`, a checkout on the agent's own branch that lies outside the root. */
  lemma EnsureCanReuseOutsideRoot(env: Env)
    ensures var w := Worktree(["x"], OnBranch("a/t"));
            && Ensure(RepoWith(w), POLICY, ["m"], AgentArgs(Some(["x"])), env) ==
               Ran(RepoWith(w), Success(Reused(w.path)))
            && !Compliant(POLICY, w)
  {
    assert "x"[0] != "m"[0] && |"x"| == 1 && "x"[0] != '.';
    EnsureReusesIn(Worktree(["x"], OnBranch("a/t")), Some(["x"]), env);
  }

  // ----- the commands as they run -----

  /** A machine on which the tool is run, command after command. */
  class Machine {
    const policy: Policy
    var repo: Repo

    constructor (repo: Repo, policy: Policy)
      ensures this.repo == repo && this.policy == policy
    {
      this.repo := repo;
      this.policy := policy;
    }

    method RunSyncMain(env: Env) returns (r: Result<Report, Error>)
      modifies this
      ensures Ran(repo, r) == SyncMain(old(repo), policy, env)
    {
      var missing := MainCloneError(repo, policy);
      if missing.Some? {
        return Failure(missing.value);
      }
      if CurrentBranch(TopLevel(repo.worktrees, policy.mainClone).value) != MAIN {
        return Failure(WrongBranch);
      }
      if policy.mainClone in repo.dirty {
        return Failure(LocalChanges);
      }
      var fetched := Fetch(repo, MAIN, env.fetches);
      if fetched.None? {
        return Failure(GitFailed);
      }
      repo := fetched.value;
      if MAIN !in repo.branches {
        return Failure(GitFailed);
      }
      var ahead := OnlyIn(repo.branches[MAIN], repo.tracking[MAIN]);
      var behind := OnlyIn(repo.tracking[MAIN], repo.branches[MAIN]);
      if ahead != 0 {
        return Failure(LocalCommits(ahead));
      }
      if behind != 0 {
        if !env.merges {
          return Failure(GitFailed);
        }
        repo := repo.(branches := repo.branches[MAIN := repo.tracking[MAIN]]);
      }
      return Success(Synced);
    }

    method RunCreateWorktree(args: Args, env: Env) returns (r: Result<Report, Error>)
      modifies this
      ensures Ran(repo, r) == CreateWorktree(old(repo), policy, args, env)
    {
      hide PlanWorktree, SyncMain;
      var plan := PlanWorktree(repo, policy, args);
      if plan.Failure? {
        return Failure(plan.error);
      }
      if !args.noSync {
        r := RunSyncMain(env);
        if r.Failure? {
          return;
        }
      }
      ghost var base := repo;
      repo := MakeParents(repo, plan.value.path);
      var added: Option<Repo>;
      if plan.value.branch in repo.branches {
        added := AddWorktree(repo, plan.value.path, plan.value.branch, env.adds);
      } else if ListedAtRemote(repo, plan.value.branch) {
        added := AddWorktreeWithBranch(repo, plan.value.path, plan.value.branch, plan.value.branch, env.adds);
      } else {
        added := AddWorktreeWithBranch(repo, plan.value.path, plan.value.branch, MAIN, env.adds);
      }
      assert ListedAtRemote(repo, plan.value.branch) == ListedAtRemote(base, plan.value.branch);
      if added.None? {
        return Failure(GitFailed);
      }
      repo := added.value;
      return Success(Created(plan.value.path));
    }

    method RunEnsure(cwd: Path, args: Args, env: Env) returns (r: Result<Report, Error>)
      modifies this
      ensures Ran(repo, r) == Ensure(old(repo), policy, cwd, args, env)
    {
      hide CreateWorktree, Guard, Slugify, Strip, AfterSlash, ResolvePath;
      if args.agent == "" || Strip(IsSpace, args.task) == "" {
        return Failure(MissingArgument);
      }
      var guarded := Guard(repo, policy, cwd);
      if guarded.Failure? {
        return Failure(guarded.error);
      }
      if guarded.value == [] {
        GuardedInCheckout(repo, policy, cwd);
        return Success(AlreadyCompliant(TopLevel(repo.worktrees, cwd).value.path));
      }
      var agent, task := Slugify(args.agent), Slugify(AfterSlash(Strip(IsSpace, args.task)));
      if agent.None? || task.None? {
        return Failure(NoSlug);
      }
      var path := ResolvePath(if args.path.Some? then args.path.value else policy.root + [agent.value, task.value]);
      if Find(repo.worktrees, path).Some? {
        return Success(Reused(path));
      }
      if path in repo.files {
        return Failure(PathExists);
      }
      var branch := if args.branch != "" then args.branch else agent.value + "/" + task.value;
      r := RunCreateWorktree(Args(agent.value, task.value, branch, args.path, args.noSync), env);
    }
  }

  lemma GuardedInCheckout(repo: Repo, policy: Policy, cwd: Path)
    requires Guard(repo, policy, cwd).Success?
    ensures TopLevel(repo.worktrees, cwd).Some?
  {
  }
}
