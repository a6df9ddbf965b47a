/** `scrape_account` as written, where a folder whose name contains '/'
    raises at its first .eml file (line 329 opens a path under a directory
    that was never created): such a run is the corrected run cut short at
    that point, it never marks the account completed, and neither does any
    later run against the same mailbox and cutoff. "Raises" here means
    raises because of '/'; other failures of the open are left to the
    interruption point. */
module AsWrittenRuns {
  import opened Strings
  import opened Extraction
  import opened Folders
  import opened Storage
  import opened Orchestrator
  import opened Resumption

  /** Folder `j` of the list is saved and raises when it is. */
  predicate Raises(folders: seq<Folder>, saves: seq<Option<seq<Effect>>>, j: nat)
    requires j < |folders| == |saves|
  {
    saves[j].Some? && CrashesAt(folders[j], saves[j].value)
  }

  /** Two folders of the same name both raise or neither does. */
  lemma SameNameRaisesAlike(folders: seq<Folder>, saves: seq<Option<seq<Effect>>>, i: nat, j: nat)
    requires i < |folders| && j < |folders| && NamesDetermineSaves(folders, saves)
    ensures folders[i].name == folders[j].name ==> (Raises(folders, saves, i) <==> Raises(folders, saves, j))
  {
  }

  /** With names determining saves, the folder loop from index `k` raises
      exactly when some folder from `k` on raises and its name is not yet
      completed: an earlier folder of the same name, saved alike, would
      have raised first. */
  lemma {:induction false} CrashFromIff(folders: seq<Folder>, saves: seq<Option<seq<Effect>>>, k: nat, e: AccountProgress)
    requires k <= |folders| && NamesDetermineSaves(folders, saves)
    ensures CrashFrom(folders, saves, k, e).Some? <==>
      exists j :: k <= j < |folders| && folders[j].name !in e.completedFolders && Raises(folders, saves, j)
    decreases |folders| - k
  {
    if k < |folders| {
      if folders[k].name in e.completedFolders || saves[k].None? {
        CrashFromIff(folders, saves, k + 1, e);
        if exists j :: k <= j < |folders| && folders[j].name !in e.completedFolders && Raises(folders, saves, j) {
          var j :| k <= j < |folders| && folders[j].name !in e.completedFolders && Raises(folders, saves, j);
          assert j != k;
        }
      } else if !CrashesAt(folders[k], saves[k].value) {
        var next := AccountProgress(k + 1, e.completedFolders + [folders[k].name]);
        CrashFromIff(folders, saves, k + 1, next);
        if exists j :: k <= j < |folders| && folders[j].name !in e.completedFolders && Raises(folders, saves, j) {
          var j :| k <= j < |folders| && folders[j].name !in e.completedFolders && Raises(folders, saves, j);
          SameNameRaisesAlike(folders, saves, j, k);
          assert folders[j].name !in next.completedFolders;
        }
      } else {
        assert Raises(folders, saves, k);
      }
    }
  }

  /** A cut of the folder loop from index `k` no later than the point
      where it raises: no folder that raises has had its name recorded as
      completed since, since only folders saved in full are recorded. */
  lemma {:induction false} CutBeforeCrash(folders: seq<Folder>, saves: seq<Option<seq<Effect>>>, k: nat, e: AccountProgress, n: nat)
    requires k <= |folders| && NamesDetermineSaves(folders, saves) && SavesWriteOnly(saves)
    requires n <= |FolderSteps(folders, saves, k, e)|
    requires CrashFrom(folders, saves, k, e).Some? ==> n <= CrashFrom(folders, saves, k, e).value
    ensures forall j :: 0 <= j < |folders| && Raises(folders, saves, j) && folders[j].name !in e.completedFolders ==>
      folders[j].name !in LastEntry(FolderSteps(folders, saves, k, e)[..n], e).completedFolders
    decreases |folders| - k
  {
    var steps := FolderSteps(folders, saves, k, e);
    if k == |folders| {
      assert steps[..n] == [];
    } else if folders[k].name in e.completedFolders || saves[k].None? {
      CutBeforeCrash(folders, saves, k + 1, e, n);
    } else if CrashesAt(folders[k], saves[k].value) {
      assert steps[..n] == [];
    } else {
      var next := AccountProgress(k + 1, e.completedFolders + [folders[k].name]);
      var effs := saves[k].value;
      var rest := FolderSteps(folders, saves, k + 1, next);
      assert steps == effs + [Checkpoint(next)] + rest;
      if n <= |effs| {
        assert steps[..n] == effs[..n];
        assert OnlyWrites(effs[..n]);
        LastEntryOfWrites(effs[..n], e);
      } else {
        var n' := n - |effs| - 1;
        CutBeforeCrash(folders, saves, k + 1, next, n');
        assert steps[..n] == (effs + [Checkpoint(next)]) + rest[..n'];
        LastEntryConcat(effs + [Checkpoint(next)], rest[..n'], e);
        assert LastEntry(effs + [Checkpoint(next)], e) == next;
      }
    }
  }

  /** The as-written run is the corrected run interrupted at the earlier of
      the interruption and the point where it raises. */
  lemma AsWrittenRunIsCutShort(s: Store, account: string, loginOk: bool, m: Mailbox, cutoff: int, interrupt: Option<nat>)
    ensures Truncate(AccountTraceAsWritten(s, account, loginOk, m, cutoff), interrupt)
         == Truncate(AccountTrace(s, account, loginOk, m, cutoff), Earliest(interrupt, CrashPoint(s, account, loginOk, m, cutoff)))
  {
    if account !in s.completed && loginOk && InboxShown(m.selectors) {
      var folders := FolderList(m.selectors, m.labelLinks);
      var saves := FolderSaves(account, folders, m, cutoff);
      var e := EntryOf(s.progress, account);
      var steps := FolderSteps(folders, saves, 0, e);
      var full := steps + [MarkCompleted, DropEntry];
      var crash := CrashFrom(folders, saves, 0, e);
      CrashWithinSteps(folders, saves, 0, e);
      if crash.Some? {
        var c := crash.value;
        assert full[..c] == steps[..c];
        if interrupt.Some? && interrupt.value <= c {
          var i := interrupt.value;
          assert steps[..c][..i] == steps[..i] == full[..i];
        }
      }
    }
  }

  /** The as-written run agrees with the corrected one exactly when it
      does not raise. */
  lemma AsWrittenAgreesIffNoCrash(s: Store, account: string, loginOk: bool, m: Mailbox, cutoff: int)
    ensures AccountTraceAsWritten(s, account, loginOk, m, cutoff) == AccountTrace(s, account, loginOk, m, cutoff)
        <==> CrashPoint(s, account, loginOk, m, cutoff).None?
  {
    if account !in s.completed && loginOk && InboxShown(m.selectors) {
      var folders := FolderList(m.selectors, m.labelLinks);
      var saves := FolderSaves(account, folders, m, cutoff);
      var e := EntryOf(s.progress, account);
      CrashWithinSteps(folders, saves, 0, e);
      if CrashFrom(folders, saves, 0, e).Some? {
        assert |AccountTraceAsWritten(s, account, loginOk, m, cutoff)| < |AccountTrace(s, account, loginOk, m, cutoff)|;
      }
    }
  }

  /** A mailbox with no folder name containing '/' gives a run that does
      not raise because of '/'. */
  lemma NoSlashNoCrash(s: Store, account: string, loginOk: bool, m: Mailbox, cutoff: int)
    requires forall f :: f in FolderList(m.selectors, m.labelLinks) ==> '/' !in f.name
    ensures CrashPoint(s, account, loginOk, m, cutoff).None?
  {
    if account !in s.completed && loginOk && InboxShown(m.selectors) {
      var folders := FolderList(m.selectors, m.labelLinks);
      var saves := FolderSaves(account, folders, m, cutoff);
      ListSavesFacts(account, m, cutoff);
      CrashFromIff(folders, saves, 0, EntryOf(s.progress, account));
    }
  }

  /** A run that raises, interrupted anywhere or not, leaves the account
      not completed, and the next run against the same mailbox and cutoff
      raises again: the raising folder was never checkpointed. */
  lemma AsWrittenRunLeavesCrash(s: Store, account: string, m: Mailbox, cutoff: int, interrupt: Option<nat>)
    requires CrashPoint(s, account, true, m, cutoff).Some?
    ensures var s1 := Replay(s, account, Truncate(AccountTraceAsWritten(s, account, true, m, cutoff), interrupt));
      && account !in s1.completed
      && CrashPoint(s1, account, true, m, cutoff).Some?
  {
    var folders := FolderList(m.selectors, m.labelLinks);
    var saves := FolderSaves(account, folders, m, cutoff);
    var e0 := EntryOf(s.progress, account);
    var steps := FolderSteps(folders, saves, 0, e0);
    var c := CrashFrom(folders, saves, 0, e0).value;
    ListSavesFacts(account, m, cutoff);
    CrashWithinSteps(folders, saves, 0, e0);
    var n := if interrupt.Some? && interrupt.value <= c then interrupt.value else c;
    assert Truncate(AccountTraceAsWritten(s, account, true, m, cutoff), interrupt) == steps[..n];
    var s1 := Replay(s, account, steps[..n]);
    FolderStepsSaving(folders, saves, 0, e0);
    assert Saving(steps[..n]);
    ReplayFacts(s, account, steps[..n]);
    ReplayEntry(s, account, steps[..n]);
    CrashFromIff(folders, saves, 0, e0);
    var j :| 0 <= j < |folders| && folders[j].name !in e0.completedFolders && Raises(folders, saves, j);
    CutBeforeCrash(folders, saves, 0, e0, n);
    CrashFromIff(folders, saves, 0, EntryOf(s1.progress, account));
  }

  /** The store after a series of as-written runs against the same
      mailbox, the `i`th interrupted at `interrupts[i]`. */
  function RunsAsWritten(s: Store, account: string, m: Mailbox, cutoff: int, interrupts: seq<Option<nat>>): Store
    decreases |interrupts|
  {
    if interrupts == [] then s
    else
      var s1 := Replay(s, account, Truncate(AccountTraceAsWritten(s, account, true, m, cutoff), interrupts[0]));
      RunsAsWritten(s1, account, m, cutoff, interrupts[1..])
  }

  /** Once a run raises, no number of later runs against the same mailbox
      and cutoff, interrupted or not, marks the account completed. */
  lemma {:induction false} AsWrittenNeverCompletes(s: Store, account: string, m: Mailbox, cutoff: int, interrupts: seq<Option<nat>>)
    requires CrashPoint(s, account, true, m, cutoff).Some?
    ensures account !in RunsAsWritten(s, account, m, cutoff, interrupts).completed
    decreases |interrupts|
  {
    if interrupts != [] {
      AsWrittenRunLeavesCrash(s, account, m, cutoff, interrupts[0]);
      var s1 := Replay(s, account, Truncate(AccountTraceAsWritten(s, account, true, m, cutoff), interrupts[0]));
      AsWrittenNeverCompletes(s1, account, m, cutoff, interrupts[1..]);
    }
  }

  /** The as-written run keeps the store well formed. */
  lemma AsWrittenKeepsStoreValid(s: Store, account: string, loginOk: bool, m: Mailbox, cutoff: int, interrupt: Option<nat>)
    requires ValidStore(s)
    ensures ValidStore(Replay(s, account, Truncate(AccountTraceAsWritten(s, account, loginOk, m, cutoff), interrupt)))
  {
    AsWrittenRunIsCutShort(s, account, loginOk, m, cutoff, interrupt);
    RunKeepsStoreValid(s, account, loginOk, m, cutoff, Earliest(interrupt, CrashPoint(s, account, loginOk, m, cutoff)));
  }

  /** The as-written run leaves other accounts alone, removes no file, and
      keeps the completed list's order, gaining at most this account. */
  lemma AsWrittenLeavesOthersAlone(s: Store, account: string, loginOk: bool, m: Mailbox, cutoff: int, interrupt: Option<nat>)
    ensures var r := Replay(s, account, Truncate(AccountTraceAsWritten(s, account, loginOk, m, cutoff), interrupt));
      && s.files <= r.files
      && (forall b :: b != account ==> (b in r.progress <==> b in s.progress))
      && (forall b :: b != account && b in s.progress ==> r.progress[b] == s.progress[b])
      && s.completed <= r.completed
      && (forall x :: x in r.completed ==> x in s.completed || x == account)
  {
    AsWrittenRunIsCutShort(s, account, loginOk, m, cutoff, interrupt);
    RunLeavesOthersAlone(s, account, loginOk, m, cutoff, Earliest(interrupt, CrashPoint(s, account, loginOk, m, cutoff)));
  }
}
