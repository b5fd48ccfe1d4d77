/**
 * The install step of a backup import: existing data is moved aside, the staged CA and database are
 * renamed into place, and any failing rename undoes what was done (internal/backup/backup.go).
 */
module BackupInstall {
  import opened Prelude

  datatype Item = File(data: Bytes) | Directory(files: map<string, Bytes>)

  type Files = map<string, Item>

  function Renamed(fs: Files, src: string, dst: string): Files
    requires src in fs
  {
    (fs - {src})[dst := fs[src]]
  }

  /** os.Rename replaces a file by a file. It refuses any directory as its target, also an empty one. */
  predicate Replaceable(fs: Files, src: string, dst: string)
    requires src in fs
  {
    || dst !in fs
    || (fs[src].File? && fs[dst].File?)
  }

  /** Renaming and renaming back restores everything exactly if the name in between was free. */
  lemma RenameBackIff(fs: Files, src: string, dst: string)
    requires src in fs && src != dst
    ensures Renamed(Renamed(fs, src, dst), dst, src) == fs <==> dst !in fs
  {
    assert Renamed(Renamed(fs, src, dst), dst, src) == fs - {dst};
  }

  lemma RenameTwoIntoPlace(fs: Files, c: string, d: string, c': string, d': string)
    requires c in fs && d in fs && c != d && c' !in fs && d' !in fs && c' != d'
    ensures Renamed(fs, c, c') - {c'} == fs - {c}
    ensures d in Renamed(fs, c, c') && d' !in Renamed(fs, c, c')
    ensures var end := (fs - {c, d})[c' := fs[c]][d' := fs[d]];
            Renamed(Renamed(fs, c, c'), d, d') == end && end - {c, d} == end
  {
  }

  class FileSystem {
    var items: Files

    constructor (items: Files)
      ensures this.items == items
    {
      this.items := items;
    }

    /** Fails when it must, and onto the destinations `failing`; a failed rename changes nothing. */
    method Rename(src: string, dst: string, failing: set<string>) returns (ok: bool)
      modifies this
      ensures ok <==> dst !in failing && src in old(items) && Replaceable(old(items), src, dst)
      ensures items == if ok then Renamed(old(items), src, dst) else old(items)
    {
      ok := dst !in failing && src in items && Replaceable(items, src, dst);
      if ok {
        items := Renamed(items, src, dst);
      }
    }

    /** An undo step: a rename that is assumed not to fail while its source exists. */
    method RenameBackTo(src: string, dst: string)
      modifies this
      ensures items == if src in old(items) then Renamed(old(items), src, dst) else old(items)
    {
      if src in items {
        items := Renamed(items, src, dst);
      }
    }

    method RemoveAll(path: string)
      modifies this
      ensures items == old(items) - {path}
    {
      items := items - {path};
    }
  }

  // ---------------------------------------------------------------- what moving aside means

  function Backup(path: string, suffix: string): string {
    path + suffix
  }

  lemma BackupInjective(suffix: string)
    ensures forall p, q :: Backup(p, suffix) == Backup(q, suffix) <==> p == q
    ensures forall p :: |Backup(p, suffix)| >= |suffix| && Backup(p, suffix)[..|Backup(p, suffix)| - |suffix|] == p
  {
    assert forall p :: Backup(p, suffix)[..|Backup(p, suffix)| - |suffix|] == p;
  }

  /** `paths` renamed, one after the other, to their backup names. */
  ghost function MovedAside(fs: Files, paths: seq<string>, suffix: string): Files {
    if paths == [] then fs else
    var last := paths[|paths| - 1];
    var before := MovedAside(fs, paths[..|paths| - 1], suffix);
    if last in before then Renamed(before, last, Backup(last, suffix)) else before
  }

  ghost predicate Distinct(paths: seq<string>) {
    forall i, j :: 0 <= i < j < |paths| ==> paths[i] != paths[j]
  }

  /** No backup name of `paths` is itself one of `paths`; it may well be in use. */
  ghost predicate Apart(paths: seq<string>, suffix: string) {
    forall p :: p in paths ==> Backup(p, suffix) !in paths
  }

  function Backups(paths: seq<string>, suffix: string): set<string> {
    set p | p in paths :: Backup(p, suffix)
  }

  lemma {:induction false} Untouched(fs: Files, paths: seq<string>, suffix: string, q: string)
    requires q !in paths && forall p :: p in paths ==> q != Backup(p, suffix)
    ensures var aside := MovedAside(fs, paths, suffix); (q in aside <==> q in fs) && (q in fs ==> aside[q] == fs[q])
  {
    hide Backup;
    if paths != [] {
      Untouched(fs, paths[..|paths| - 1], suffix, q);
    }
  }

  lemma {:induction false} Displaced(fs: Files, paths: seq<string>, suffix: string, p: string)
    requires Distinct(paths) && Apart(paths, suffix)
    requires p in paths && p in fs
    ensures var aside := MovedAside(fs, paths, suffix);
            p !in aside && Backup(p, suffix) in aside && aside[Backup(p, suffix)] == fs[p]
  {
    BackupInjective(suffix);
    hide Backup;
    var n := |paths| - 1;
    assert paths == paths[..n] + [paths[n]];
    if p == paths[n] {
      Untouched(fs, paths[..n], suffix, p);
    } else {
      Displaced(fs, paths[..n], suffix, p);
    }
  }

  /** Each displaced item is intact under its backup name, its old name is free, nothing else changed. */
  lemma MovedAsideMeaning(fs: Files, paths: seq<string>, suffix: string)
    requires Distinct(paths) && Apart(paths, suffix)
    requires forall p :: p in paths ==> p in fs
    ensures var aside := MovedAside(fs, paths, suffix);
            && (forall p :: p in paths ==>
                 p !in aside && Backup(p, suffix) in aside && aside[Backup(p, suffix)] == fs[p])
            && (forall q :: q !in paths && (forall p :: p in paths ==> q != Backup(p, suffix)) ==>
                  (q in aside <==> q in fs) && (q in fs ==> aside[q] == fs[q]))
  {
    hide Backup, MovedAside;
    var aside := MovedAside(fs, paths, suffix);
    forall p | p in paths
      ensures p !in aside && Backup(p, suffix) in aside && aside[Backup(p, suffix)] == fs[p]
    {
      Displaced(fs, paths, suffix, p);
    }
    forall q | q !in paths && forall p :: p in paths ==> q != Backup(p, suffix)
      ensures (q in aside <==> q in fs) && (q in fs ==> aside[q] == fs[q])
    {
      Untouched(fs, paths, suffix, q);
    }
  }

  /** An uninvolved path can be dropped before or after. */
  lemma {:induction false} MovedAsideWithout(fs: Files, paths: seq<string>, suffix: string, c: string)
    requires c !in paths && forall p :: p in paths ==> c != Backup(p, suffix)
    ensures MovedAside(fs - {c}, paths, suffix) == MovedAside(fs, paths, suffix) - {c}
  {
    if paths != [] {
      MovedAsideWithout(fs, paths[..|paths| - 1], suffix, c);
    }
  }

  // ---------------------------------------------------------------- install

  datatype Outcome =
    | Refused
    | MoveAsideFailed
    | InstallCAFailed
    | InstallDatabaseFailed
    | Installed(movedAside: seq<string>)

  /** The paths of `candidates` that exist. */
  function Existing(fs: Files, candidates: seq<string>): (e: seq<string>)
    ensures forall p :: p in e <==> p in candidates && p in fs
  {
    if candidates == [] then [] else
    var n := |candidates| - 1;
    Existing(fs, candidates[..n]) + if candidates[n] in fs then [candidates[n]] else []
  }

  lemma {:induction false} ExistingDistinct(fs: Files, candidates: seq<string>)
    requires Distinct(candidates)
    ensures Distinct(Existing(fs, candidates))
  {
    if candidates != [] {
      ExistingDistinct(fs, candidates[..|candidates| - 1]);
    }
  }

  function BackupNames(paths: seq<string>, suffix: string): seq<string> {
    seq(|paths|, i requires 0 <= i < |paths| => Backup(paths[i], suffix))
  }

  /** Where everything lies, whatever the list of paths to be moved aside. */
  datatype Plan = Plan(candidates: seq<string>, stagedCA: string, stagedDB: string, finalCA: string, finalDB: string,
                       suffix: string) {

    ghost predicate Valid() {
      && Distinct(candidates) && finalCA in candidates && finalDB in candidates && finalCA != finalDB
      && stagedCA != stagedDB && stagedCA !in candidates && stagedDB !in candidates
      && suffix != ""
      && (forall p :: p in candidates ==>
            Backup(p, suffix) !in candidates && Backup(p, suffix) != stagedCA && Backup(p, suffix) != stagedDB)
    }

    /** The file system after a successful import. */
    ghost function Final(fs: Files): Files
      requires stagedCA in fs && stagedDB in fs
    {
      var rest := MovedAside(fs, Existing(fs, candidates), suffix) - {stagedCA, stagedDB};
      rest[finalCA := fs[stagedCA]][finalDB := fs[stagedDB]]
    }
  }

  // ---------------------------------------------------------------- what a run does

  /** The rename of `p` to its backup name goes through. */
  predicate Goes(fs: Files, p: string, suffix: string, failing: set<string>) {
    p in fs && Backup(p, suffix) !in failing && Replaceable(fs, p, Backup(p, suffix))
  }

  /** How many of `paths` are moved aside before the first rename that fails. */
  function Movable(fs: Files, paths: seq<string>, suffix: string, failing: set<string>): (k: nat)
    ensures k <= |paths| && (k < |paths| ==> !Goes(fs, paths[k], suffix, failing))
    ensures forall i :: 0 <= i < k ==> Goes(fs, paths[i], suffix, failing)
  {
    if paths == [] || !Goes(fs, paths[0], suffix, failing) then 0 else 1 + Movable(fs, paths[1..], suffix, failing)
  }

  /** The outcome of an install for every choice of failing renames. */
  ghost function ResultOf(plan: Plan, before: Files, replace: bool, failing: set<string>): Outcome {
    var existing := Existing(before, plan.candidates);
    if existing != [] && !replace then Refused else
    if Movable(before, existing, plan.suffix, failing) < |existing| then MoveAsideFailed else
    if plan.finalCA in failing then InstallCAFailed else
    if plan.finalDB in failing then InstallDatabaseFailed else
    Installed(BackupNames(existing, plan.suffix))
  }

  /** The file system it leaves: undoing a move also removes whatever it had replaced. */
  ghost function Left(plan: Plan, before: Files, replace: bool, failing: set<string>): Files
    requires plan.stagedCA in before && plan.stagedDB in before
  {
    var existing := Existing(before, plan.candidates);
    match ResultOf(plan, before, replace, failing)
    case Refused => before - {plan.stagedCA, plan.stagedDB}
    case MoveAsideFailed =>
      before - Backups(existing[..Movable(before, existing, plan.suffix, failing)], plan.suffix)
             - {plan.stagedCA, plan.stagedDB}
    case InstallCAFailed => before - Backups(existing, plan.suffix) - {plan.stagedCA, plan.stagedDB}
    case InstallDatabaseFailed => before - Backups(existing, plan.suffix) - {plan.stagedCA, plan.stagedDB}
    case Installed(_) => plan.Final(before)
  }

  /** The renames after everything existing was moved aside, and the undo of the first of them. */
  lemma InstallSteps(plan: Plan, before: Files)
    requires plan.Valid() && plan.stagedCA in before && plan.stagedDB in before
    ensures var existing := Existing(before, plan.candidates);
            var aside := MovedAside(before, existing, plan.suffix);
            && Distinct(existing) && Apart(existing, plan.suffix)
            && plan.stagedCA in aside && plan.finalCA !in aside
            && var withCA := Renamed(aside, plan.stagedCA, plan.finalCA);
               && withCA - {plan.finalCA} == MovedAside(before - {plan.stagedCA}, existing, plan.suffix)
               && plan.stagedDB in withCA && plan.finalDB !in withCA
               && Renamed(withCA, plan.stagedDB, plan.finalDB) == plan.Final(before)
               && plan.Final(before) - {plan.stagedCA, plan.stagedDB} == plan.Final(before)
  {
    var existing := Existing(before, plan.candidates);
    ExistingDistinct(before, plan.candidates);
    BackupInjective(plan.suffix);
    Untouched(before, existing, plan.suffix, plan.stagedCA);
    Untouched(before, existing, plan.suffix, plan.stagedDB);
    var aside := MovedAside(before, existing, plan.suffix);
    forall p | p in {plan.finalCA, plan.finalDB}
      ensures p !in aside
    {
      if p in existing {
        Displaced(before, existing, plan.suffix, p);
      } else {
        Untouched(before, existing, plan.suffix, p);
      }
    }
    RenameTwoIntoPlace(aside, plan.stagedCA, plan.stagedDB, plan.finalCA, plan.finalDB);
    MovedAsideWithout(before, existing, plan.suffix, plan.stagedCA);
    hide Backup, MovedAside, Existing, Renamed;
  }

  class Importer {
    const fs: FileSystem
    const plan: Plan
    var moved: seq<string>

    constructor (fs: FileSystem, plan: Plan)
      ensures this.fs == fs && this.plan == plan && moved == []
    {
      this.fs, this.plan, moved := fs, plan, [];
    }

    /** Undoes the renames of `paths` recorded in `moved`, last first. What they replaced is lost. */
    method Rollback(ghost before: Files, ghost paths: seq<string>)
      requires Distinct(paths) && Apart(paths, plan.suffix) && forall p :: p in paths ==> p in before
      requires moved == BackupNames(paths, plan.suffix)
      requires fs.items == MovedAside(before, paths, plan.suffix)
      modifies fs
      ensures fs.items == before - Backups(paths, plan.suffix)
    {
      hide Backup, MovedAside, Renamed;
      BackupInjective(plan.suffix);
      var i := |moved|;
      assert paths[..i] == paths && paths[i..] == [] && fs.items - {} == fs.items;
      while i > 0
        invariant 0 <= i <= |moved|
        invariant fs.items == MovedAside(before, paths[..i], plan.suffix) - Backups(paths[i..], plan.suffix)
      {
        i := i - 1;
        UndoOne(before, paths, i, plan.suffix);
        assert moved[i] == Backup(paths[i], plan.suffix);
        var orig := moved[i][..|moved[i]| - |plan.suffix|];
        fs.RenameBackTo(moved[i], orig);
      }
      NothingMoved(before, plan.suffix);
      assert paths[..0] == [] && paths[0..] == paths;
    }

    /**
     * For every file system and every choice of failing renames: the outcome is `ResultOf`, and the
     * file system left, with the staging area discarded, is `Left`.
     */
    method Install(replace: bool, failing: set<string>) returns (outcome: Outcome)
      requires plan.Valid() && moved == []
      requires plan.stagedCA in fs.items && plan.stagedDB in fs.items
      modifies this, fs
      ensures outcome == ResultOf(plan, old(fs.items), replace, failing)
      ensures fs.items == Left(plan, old(fs.items), replace, failing)
    {
      InstallSteps(plan, fs.items);
      ghost var before := fs.items;
      outcome := InstallStaged(replace, failing);
      hide Existing, Movable, Backups, MovedAside;
      fs.RemoveAll(plan.stagedCA);
      fs.RemoveAll(plan.stagedDB);
    }

    method InstallStaged(replace: bool, failing: set<string>) returns (outcome: Outcome)
      requires plan.Valid() && moved == []
      requires plan.stagedCA in fs.items && plan.stagedDB in fs.items
      modifies this, fs
      ensures outcome == ResultOf(plan, old(fs.items), replace, failing)
      ensures fs.items - {plan.stagedCA, plan.stagedDB} == Left(plan, old(fs.items), replace, failing)
    {
      hide Movable, MovedAside, Existing, Backups;
      InstallSteps(plan, fs.items);
      ghost var before := fs.items;
      var existing := ListExisting();
      if |existing| > 0 {
        if !replace {
          return Refused;
        }
        var ok := MoveAside(existing, failing);
        if !ok {
          return MoveAsideFailed;
        }
      } else {
        NothingMoved(before, plan.suffix);
      }
      outcome := PutInPlace(before, existing, failing);
    }

    /** The last two renames, once `existing` is out of the way. */
    method PutInPlace(ghost before: Files, ghost existing: seq<string>, failing: set<string>) returns (outcome: Outcome)
      requires plan.Valid() && plan.stagedCA in before && plan.stagedDB in before
      requires existing == Existing(before, plan.candidates) && moved == BackupNames(existing, plan.suffix)
      requires fs.items == MovedAside(before, existing, plan.suffix)
      modifies fs
      ensures outcome == if plan.finalCA in failing then InstallCAFailed
                         else if plan.finalDB in failing then InstallDatabaseFailed
                         else Installed(moved)
      ensures outcome.Installed? ==> fs.items == plan.Final(before)
      ensures !outcome.Installed? ==>
                fs.items - {plan.stagedCA, plan.stagedDB}
                == before - Backups(existing, plan.suffix) - {plan.stagedCA, plan.stagedDB}
    {
      InstallSteps(plan, before);
      hide Backup, MovedAside, Existing, Renamed, Backups;
      var ok := fs.Rename(plan.stagedCA, plan.finalCA, failing);
      if !ok {
        Rollback(before, existing);
        return InstallCAFailed;
      }
      ok := fs.Rename(plan.stagedDB, plan.finalDB, failing);
      if !ok {
        fs.RemoveAll(plan.finalCA);
        Rollback(before - {plan.stagedCA}, existing);
        return InstallDatabaseFailed;
      }
      return Installed(moved);
    }

    method ListExisting() returns (existing: seq<string>)
      ensures existing == Existing(fs.items, plan.candidates)
    {
      existing := [];
      for i := 0 to |plan.candidates|
        invariant existing == Existing(fs.items, plan.candidates[..i])
      {
        assert plan.candidates[..i + 1][..i] == plan.candidates[..i];
        if plan.candidates[i] in fs.items {
          existing := existing + [plan.candidates[i]];
        }
      }
      assert plan.candidates[..|plan.candidates|] == plan.candidates;
    }

    /** Renames `existing` to backup names, or undoes what it renamed. */
    method MoveAside(existing: seq<string>, failing: set<string>) returns (ok: bool)
      requires moved == []
      requires Distinct(existing) && Apart(existing, plan.suffix) && forall p :: p in existing ==> p in fs.items
      modifies this, fs
      ensures var k := Movable(old(fs.items), existing, plan.suffix, failing);
              && (ok <==> k == |existing|)
              && fs.items == if ok then MovedAside(old(fs.items), existing, plan.suffix)
                             else old(fs.items) - Backups(existing[..k], plan.suffix)
      ensures ok ==> moved == BackupNames(existing, plan.suffix)
    {
      ghost var before := fs.items;
      ghost var k := Movable(before, existing, plan.suffix, failing);
      NothingMoved(before, plan.suffix);
      assert existing[..0] == [];
      hide Backup, MovedAside, Renamed, Movable, Goes, Backups;
      var i := 0;
      while i < |existing|
        invariant 0 <= i <= k <= |existing|
        invariant moved == BackupNames(existing[..i], plan.suffix)
        invariant fs.items == MovedAside(before, existing[..i], plan.suffix)
      {
        var p := existing[i];
        MoveOne(before, existing, i, plan.suffix, failing);
        var renamed := fs.Rename(p, Backup(p, plan.suffix), failing);
        if !renamed {
          AnyPrefix(existing, i, plan.suffix);
          Rollback(before, existing[..i]);
          return false;
        }
        NameOne(existing, i, plan.suffix);
        moved := moved + [Backup(p, plan.suffix)];
        i := i + 1;
      }
      assert existing[..|existing|] == existing;
      return true;
    }
  }

  lemma NothingMoved(before: Files, suffix: string)
    ensures MovedAside(before, [], suffix) == before && BackupNames([], suffix) == []
  {
  }

  lemma AnyPrefix(paths: seq<string>, i: nat, suffix: string)
    requires i <= |paths| && Distinct(paths) && Apart(paths, suffix)
    ensures Distinct(paths[..i]) && Apart(paths[..i], suffix) && forall p :: p in paths[..i] ==> p in paths
  {
  }

  /** Moving one more path aside: it goes through exactly if it would have at the start. */
  lemma MoveOne(before: Files, paths: seq<string>, i: nat, suffix: string, failing: set<string>)
    requires i < |paths| && Distinct(paths) && Apart(paths, suffix)
    requires forall p :: p in paths ==> p in before
    ensures var p, aside := paths[i], MovedAside(before, paths[..i], suffix);
            && p in aside
            && (Goes(before, p, suffix, failing) <==>
                Backup(p, suffix) !in failing && Replaceable(aside, p, Backup(p, suffix)))
            && Renamed(aside, p, Backup(p, suffix)) == MovedAside(before, paths[..i + 1], suffix)
  {
    BackupInjective(suffix);
    hide Backup;
    var p := paths[i];
    assert paths[..i + 1][..i] == paths[..i];
    assert p !in paths[..i];
    Untouched(before, paths[..i], suffix, p);
    Untouched(before, paths[..i], suffix, Backup(p, suffix));
  }

  lemma NameOne(paths: seq<string>, i: nat, suffix: string)
    requires i < |paths|
    ensures BackupNames(paths[..i + 1], suffix) == BackupNames(paths[..i], suffix) + [Backup(paths[i], suffix)]
  {
    hide Backup;
  }

  /** Undoing the last of the first `i + 1` moves leaves the first `i`, without what stood at the backup name. */
  lemma UndoOne(before: Files, paths: seq<string>, i: nat, suffix: string)
    requires i < |paths| && Distinct(paths) && Apart(paths, suffix)
    requires forall p :: p in paths ==> p in before
    ensures var p, now := paths[i], MovedAside(before, paths[..i + 1], suffix) - Backups(paths[i + 1..], suffix);
            && Backup(p, suffix)[..|Backup(p, suffix)| - |suffix|] == p
            && Backup(p, suffix) in now
            && Renamed(now, Backup(p, suffix), p) ==
               MovedAside(before, paths[..i], suffix) - Backups(paths[i..], suffix)
  {
    BackupInjective(suffix);
    var p, b, later := paths[i], Backup(paths[i], suffix), Backups(paths[i + 1..], suffix);
    assert b !in later && p !in later;
    assert Backups(paths[i..], suffix) == later + {b} by {
      assert paths[i..] == [p] + paths[i + 1..];
    }
    MoveOne(before, paths, i, suffix, {});
    var aside := MovedAside(before, paths[..i], suffix);
    assert p != b;
    hide Backup, Backups, MovedAside;
    RenameBackIff(aside, p, b);
    UndoWithout(aside, p, b, later);
  }

  /** Renaming away and back loses exactly what the other name held; uninvolved names do not matter. */
  lemma UndoWithout(fs: Files, p: string, b: string, later: set<string>)
    requires p in fs && p != b && p !in later && b !in later
    ensures Renamed(Renamed(fs, p, b) - later, b, p) == fs - (later + {b})
  {
  }

  /**
   * After a successful import the staged CA and database are in place, each displaced item is
   * intact under its backup name, the other candidates are gone and nothing else changed.
   */
  lemma FinalMeaning(plan: Plan, before: Files)
    requires plan.Valid() && plan.stagedCA in before && plan.stagedDB in before
    ensures var existing, final := Existing(before, plan.candidates), plan.Final(before);
            && plan.finalCA in final && final[plan.finalCA] == before[plan.stagedCA]
            && plan.finalDB in final && final[plan.finalDB] == before[plan.stagedDB]
            && (forall p :: p in existing ==>
                 Backup(p, plan.suffix) in final && final[Backup(p, plan.suffix)] == before[p])
            && (forall p :: p in plan.candidates && p != plan.finalCA && p != plan.finalDB ==> p !in final)
            && (forall q :: q !in plan.candidates && q != plan.stagedCA && q != plan.stagedDB
                            && (forall p :: p in existing ==> q != Backup(p, plan.suffix)) ==>
                  (q in final <==> q in before) && (q in before ==> final[q] == before[q]))
  {
    hide Backup, MovedAside, Existing;
    var existing, final := Existing(before, plan.candidates), plan.Final(before);
    ExistingDistinct(before, plan.candidates);
    MovedAsideMeaning(before, existing, plan.suffix);
    var aside := MovedAside(before, existing, plan.suffix);
    assert forall q :: q !in {plan.stagedCA, plan.stagedDB, plan.finalCA, plan.finalDB} ==>
             (q in final <==> q in aside) && (q in aside ==> final[q] == aside[q]);
  }

  // ---------------------------------------------------------------- when nothing is lost

  /**
   * Every item there was before, the staging area aside, is where it was, or, displaced by a
   * successful import, at its backup name.
   */
  ghost predicate KeepsAll(plan: Plan, before: Files, replace: bool, failing: set<string>)
    requires plan.stagedCA in before && plan.stagedDB in before
  {
    var left, existing := Left(plan, before, replace, failing), Existing(before, plan.candidates);
    forall q :: q in before && q != plan.stagedCA && q != plan.stagedDB ==>
      var aside := ResultOf(plan, before, replace, failing).Installed? && q in existing;
      var now := if aside then Backup(q, plan.suffix) else q;
      now in left && left[now] == before[q]
  }

  /** Every path that an otherwise undisturbed run would move has a free backup name. */
  ghost predicate FreeAsFarAsMoved(plan: Plan, before: Files) {
    var existing := Existing(before, plan.candidates);
    forall i :: 0 <= i < Movable(before, existing, plan.suffix, {}) ==> Backup(existing[i], plan.suffix) !in before
  }

  lemma {:induction false} MovableFewer(fs: Files, paths: seq<string>, suffix: string, failing: set<string>)
    ensures Movable(fs, paths, suffix, failing) <= Movable(fs, paths, suffix, {})
    ensures failing !! Backups(paths, suffix) ==> Movable(fs, paths, suffix, failing) == Movable(fs, paths, suffix, {})
  {
    hide Backup;
    if paths != [] {
      MovableFewer(fs, paths[1..], suffix, failing);
      assert forall p :: p in paths[1..] ==> p in paths;
      assert Backup(paths[0], suffix) in Backups(paths, suffix);
      assert Backups(paths[1..], suffix) <= Backups(paths, suffix);
    }
  }

  /** Removing free names changes nothing. */
  lemma FreeBackups(plan: Plan, before: Files, k: nat)
    requires k <= |Existing(before, plan.candidates)|
    requires forall i :: 0 <= i < k ==> Backup(Existing(before, plan.candidates)[i], plan.suffix) !in before
    ensures before - Backups(Existing(before, plan.candidates)[..k], plan.suffix) == before
  {
    hide Backup, Existing;
  }

  /** Onto free names, an import that succeeds keeps everything, displaced or not. */
  lemma FinalKeeps(plan: Plan, before: Files)
    requires plan.Valid() && plan.stagedCA in before && plan.stagedDB in before
    requires forall p :: p in Existing(before, plan.candidates) ==> Backup(p, plan.suffix) !in before
    ensures forall q :: q in before && q != plan.stagedCA && q != plan.stagedDB ==>
              var now := if q in Existing(before, plan.candidates) then Backup(q, plan.suffix) else q;
              now in plan.Final(before) && plan.Final(before)[now] == before[q]
  {
    FinalMeaning(plan, before);
    hide *;
  }

  lemma KeptWhileFree(plan: Plan, before: Files, replace: bool, failing: set<string>)
    requires plan.Valid() && plan.stagedCA in before && plan.stagedDB in before
    requires !replace || FreeAsFarAsMoved(plan, before)
    ensures KeepsAll(plan, before, replace, failing)
  {
    var existing := Existing(before, plan.candidates);
    var k := Movable(before, existing, plan.suffix, failing);
    MovableFewer(before, existing, plan.suffix, failing);
    hide Movable, Backup, Backups, Existing;
    if existing == [] || replace {
      FreeBackups(plan, before, k);
      assert existing[..|existing|] == existing;
      if ResultOf(plan, before, replace, failing).Installed? {
        FinalKeeps(plan, before);
      }
    }
  }

  /** A replaced item is lost when the CA cannot be put in place. */
  lemma LostWhenUndone(plan: Plan, before: Files, i: nat)
    requires plan.Valid() && plan.stagedCA in before && plan.stagedDB in before
    requires var existing := Existing(before, plan.candidates);
             i < Movable(before, existing, plan.suffix, {}) && Backup(existing[i], plan.suffix) in before
    ensures !KeepsAll(plan, before, true, {plan.finalCA})
  {
    var existing, failing := Existing(before, plan.candidates), {plan.finalCA};
    var k := Movable(before, existing, plan.suffix, failing);
    var lost := Backup(existing[i], plan.suffix);
    assert failing !! Backups(existing, plan.suffix);
    MovableFewer(before, existing, plan.suffix, failing);
    assert existing[i] in existing[..k] && lost in Backups(existing[..k], plan.suffix);
    assert lost != plan.stagedCA && lost != plan.stagedDB;
    hide *;
    LeftUndone(plan, before, failing);
    NotKept(plan, before, failing, lost);
  }

  /** Without the CA in place every move is undone. */
  lemma LeftUndone(plan: Plan, before: Files, failing: set<string>)
    requires plan.stagedCA in before && plan.stagedDB in before
    requires plan.finalCA in failing
    ensures var existing := Existing(before, plan.candidates);
            var k := Movable(before, existing, plan.suffix, failing);
            && !ResultOf(plan, before, true, failing).Installed?
            && Left(plan, before, true, failing)
               == before - Backups(existing[..k], plan.suffix) - {plan.stagedCA, plan.stagedDB}
  {
    hide Movable, Backup, Backups, Existing;
    var existing := Existing(before, plan.candidates);
    assert existing[..|existing|] == existing;
  }

  lemma NotKept(plan: Plan, before: Files, failing: set<string>, lost: string)
    requires plan.stagedCA in before && plan.stagedDB in before && !ResultOf(plan, before, true, failing).Installed?
    requires lost in before && lost != plan.stagedCA && lost != plan.stagedDB
    requires lost !in Left(plan, before, true, failing)
    ensures !KeepsAll(plan, before, true, failing)
  {
    hide Left, ResultOf, Existing, Backup;
  }

  /**
   * Whatever renames fail, an import keeps or restores everything there was exactly if it may not
   * replace, or every path it gets to move has a free backup name.
   */
  lemma KeepsAllIff(plan: Plan, before: Files, replace: bool)
    requires plan.Valid() && plan.stagedCA in before && plan.stagedDB in before
    ensures (forall failing :: KeepsAll(plan, before, replace, failing)) <==> !replace || FreeAsFarAsMoved(plan, before)
  {
    hide KeepsAll;
    if !replace || FreeAsFarAsMoved(plan, before) {
      forall failing
        ensures KeepsAll(plan, before, replace, failing)
      {
        KeptWhileFree(plan, before, replace, failing);
      }
    } else {
      var existing := Existing(before, plan.candidates);
      var i :| 0 <= i < Movable(before, existing, plan.suffix, {}) && Backup(existing[i], plan.suffix) in before;
      LostWhenUndone(plan, before, i);
    }
  }

  // ---------------------------------------------------------------- the paths of Import

  function Join(dir: string, name: string): string {
    dir + "/" + name
  }

  /** `stage` is the name of the temporary directory below the data directory, `stamp` the time of the import. */
  function ImportPlan(dataDir: string, stage: string, stamp: string): Plan {
    var finalDB, finalCA := Join(dataDir, "dashboard.db"), Join(dataDir, "ca");
    Plan([finalDB, finalDB + "-wal", finalDB + "-shm", finalCA],
         Join(Join(dataDir, ".import-" + stage), "ca"), Join(Join(dataDir, ".import-" + stage), "dashboard.db"),
         finalCA, finalDB, ".bak-" + stamp)
  }

  /** No two of the paths Import works with coincide. */
  lemma ImportPlanValid(dataDir: string, stage: string, stamp: string)
    ensures ImportPlan(dataDir, stage, stamp).Valid()
  {
    var plan := ImportPlan(dataDir, stage, stamp);
    var at := |dataDir| + 1;
    var db, ca := plan.finalDB, plan.finalCA;
    var wal, shm := db + "-wal", db + "-shm";
    assert db[at] == 'd' && wal[at] == 'd' && shm[at] == 'd' && ca[at] == 'c';
    assert |db| == at + 12 && wal[at + 12..] == "-wal" && shm[at + 12..] == "-shm";
    assert plan.stagedCA[at] == '.' && plan.stagedDB[at] == '.';
    assert plan.stagedDB[|plan.stagedDB| - 1] == 'b' && plan.stagedCA[|plan.stagedCA| - 1] == 'a';
    forall p | p in plan.candidates
      ensures Backup(p, plan.suffix) !in plan.candidates
      ensures Backup(p, plan.suffix) != plan.stagedCA && Backup(p, plan.suffix) != plan.stagedDB
    {
      var b := Backup(p, plan.suffix);
      assert b[at] == p[at] && b[|p|] == '.' && |b| >= |p| + 5;
      assert wal[at + 12] == '-' && shm[at + 12] == '-';
    }
  }

  /**
   * What a successful import leaves in the data directory: the staged CA and database, no write-ahead log
   * or shared memory file that SQLite would replay into it, and under ".bak-" and the stamp whatever was
   * there before.
   */
  lemma ImportedFiles(fs: Files, dataDir: string, stage: string, stamp: string)
    requires ImportPlan(dataDir, stage, stamp).stagedCA in fs && ImportPlan(dataDir, stage, stamp).stagedDB in fs
    ensures var staged, final := dataDir + "/" + (".import-" + stage), ImportPlan(dataDir, stage, stamp).Final(fs);
            var ca, db := dataDir + "/" + "ca", dataDir + "/" + "dashboard.db";
            && staged + "/" + "ca" in fs && ca in final && final[ca] == fs[staged + "/" + "ca"]
            && staged + "/" + "dashboard.db" in fs && db in final && final[db] == fs[staged + "/" + "dashboard.db"]
            && db + "-wal" !in final && db + "-shm" !in final
            && forall p :: p in [ca, db, db + "-wal", db + "-shm"] && p in fs ==>
                 p + (".bak-" + stamp) in final && final[p + (".bak-" + stamp)] == fs[p]
  {
    var plan := ImportPlan(dataDir, stage, stamp);
    ImportPlanValid(dataDir, stage, stamp);
    FinalMeaning(plan, fs);
    hide Existing, MovedAside;
    assert plan.candidates[1] in plan.candidates && plan.candidates[2] in plan.candidates;
    assert |plan.candidates[0]| < |plan.candidates[1]| && |plan.candidates[0]| < |plan.candidates[2]|;
    var at := |dataDir| + 1;
    assert plan.finalCA[at] == 'c' && plan.candidates[1][at] == 'd' && plan.candidates[2][at] == 'd';
  }
}
