/** Properties of `scrape_account` runs over the effect model: what a run
    leaves untouched, what a complete run leaves behind, how the progress
    checkpoints advance, and that a run interrupted at any point and then
    run again ends where a single uninterrupted run ends. */
module Resumption {
  import opened Strings
  import opened Extraction
  import opened Folders
  import opened Storage
  import opened Orchestrator

  /** The paths an effect sequence writes. */
  function Written(effs: seq<Effect>): set<string> {
    if effs == [] then {}
    else (if effs[0].Write? then {effs[0].path} else {}) + Written(effs[1..])
  }

  lemma {:induction false} WrittenConcat(x: seq<Effect>, y: seq<Effect>)
    ensures Written(x + y) == Written(x) + Written(y)
  {
    if x != [] {
      assert (x + y)[1..] == x[1..] + y;
      WrittenConcat(x[1..], y);
    } else {
      assert x + y == y;
    }
  }

  /** Effects that only write files. */
  predicate OnlyWrites(effs: seq<Effect>) {
    forall i :: 0 <= i < |effs| ==> effs[i].Write?
  }

  /** Effects of the folder loop: files and checkpoints only. */
  predicate Saving(effs: seq<Effect>) {
    forall i :: 0 <= i < |effs| ==> effs[i].Write? || effs[i].Checkpoint?
  }

  lemma {:induction false} WritesOnly(paths: seq<string>)
    ensures OnlyWrites(Writes(paths)) && |Writes(paths)| == |paths|
  {
    if paths != [] {
      WritesOnly(paths[1..]);
    }
  }

  lemma {:induction false} EmailsEffectsOnlyWrites(account: string, recs: seq<EmailRecord>, downloads: map<string, seq<bool>>, j: nat)
    requires j <= |recs|
    ensures OnlyWrites(EmailsEffects(account, recs, downloads, j))
    decreases |recs| - j
  {
    if j < |recs| {
      EmailChunkAt(account, recs, downloads, j);
      WritesOnly(Downloaded(account, recs[j], OutcomesFor(downloads, recs[j].id)));
      EmailsEffectsOnlyWrites(account, recs, downloads, j + 1);
    }
  }

  /** Saving any folder writes files only. */
  predicate SavesWriteOnly(saves: seq<Option<seq<Effect>>>) {
    forall j :: 0 <= j < |saves| && saves[j].Some? ==> OnlyWrites(saves[j].value)
  }

  /** Folders of the same name are saved alike. */
  predicate NamesDetermineSaves(folders: seq<Folder>, saves: seq<Option<seq<Effect>>>) {
    |saves| == |folders| &&
    forall i, j :: 0 <= i < |folders| && 0 <= j < |folders| && folders[i].name == folders[j].name ==> saves[i] == saves[j]
  }

  /** `get_folders`' answer, saved against a mailbox: saving writes files
      only, and a name picks out one folder and so one way of saving it. */
  lemma ListSavesFacts(account: string, m: Mailbox, cutoff: int)
    ensures var folders := FolderList(m.selectors, m.labelLinks);
      && SavesWriteOnly(FolderSaves(account, folders, m, cutoff))
      && NamesDetermineSaves(folders, FolderSaves(account, folders, m, cutoff))
  {
    var folders := FolderList(m.selectors, m.labelLinks);
    var saves := FolderSaves(account, folders, m, cutoff);
    FolderNamesDetermineFolders(m.selectors, m.labelLinks);
    forall j | 0 <= j < |saves| && saves[j].Some? ensures OnlyWrites(saves[j].value) {
      var view := ViewOf(m, folders[j]);
      EmailsEffectsOnlyWrites(account, Extract(folders[j].name, view.items, cutoff), view.downloads, 0);
    }
  }

  lemma {:induction false} FolderStepsSaving(folders: seq<Folder>, saves: seq<Option<seq<Effect>>>, k: nat, e: AccountProgress)
    requires k <= |folders| == |saves| && SavesWriteOnly(saves)
    ensures Saving(FolderSteps(folders, saves, k, e))
    decreases |folders| - k
  {
    if k < |folders| {
      if folders[k].name in e.completedFolders || saves[k].None? {
        FolderStepsSaving(folders, saves, k + 1, e);
      } else {
        var next := AccountProgress(k + 1, e.completedFolders + [folders[k].name]);
        FolderStepsSaving(folders, saves, k + 1, next);
      }
    }
  }

  /** What replaying any effects does to the store: the files gain exactly
      the written paths and lose none; no other account's progress entry
      changes; the completed list only gains this account, and only
      through `MarkCompleted`. */
  lemma {:induction false} ReplayFacts(s: Store, account: string, effs: seq<Effect>)
    ensures var r := Replay(s, account, effs);
      && r.files == s.files + Written(effs)
      && (forall b :: b != account ==> (b in r.progress <==> b in s.progress))
      && (forall b :: b != account && b in s.progress ==> r.progress[b] == s.progress[b])
      && s.completed <= r.completed
      && (forall x :: x in r.completed ==> x in s.completed || x == account)
      && (Saving(effs) ==> r.completed == s.completed)
      && (OnlyWrites(effs) ==> r.progress == s.progress)
    decreases |effs|
  {
    if effs != [] {
      var init, last := effs[..|effs| - 1], effs[|effs| - 1];
      assert effs == init + [last];
      ReplayFacts(s, account, init);
      MarkCompletedFacts(Replay(s, account, init).completed, account);
      WrittenConcat(init, [last]);
      assert Written([last]) == if last.Write? then {last.path} else {};
    }
  }

  /** Whatever point a run is interrupted at (or none): no other account's
      progress entry changes, no file is removed, and the completed list
      keeps its order and gains at most this account. An account already
      completed, one whose login fails and one whose Inbox link does not
      show leave the store as they were. */
  lemma RunLeavesOthersAlone(s: Store, account: string, loginOk: bool, m: Mailbox, cutoff: int, interrupt: Option<nat>)
    ensures var r := Replay(s, account, Truncate(AccountTrace(s, account, loginOk, m, cutoff), interrupt));
      && s.files <= r.files
      && (forall b :: b != account ==> (b in r.progress <==> b in s.progress))
      && (forall b :: b != account && b in s.progress ==> r.progress[b] == s.progress[b])
      && s.completed <= r.completed
      && (forall x :: x in r.completed ==> x in s.completed || x == account)
      && (account in s.completed || !loginOk || !InboxShown(m.selectors) ==> r == s)
  {
    ReplayFacts(s, account, Truncate(AccountTrace(s, account, loginOk, m, cutoff), interrupt));
  }

  /** The files saving folder `f` writes. */
  function FolderFiles(account: string, f: Folder, view: FolderView, cutoff: int): set<string>
    requires view.Listed?
  {
    Written(FolderEffects(account, f, view, cutoff))
  }

  lemma {:induction false} WrittenWrites(paths: seq<string>, p: string)
    ensures p in Written(Writes(paths)) <==> p in paths
  {
    if paths != [] {
      WrittenWrites(paths[1..], p);
      assert Writes(paths) == [Write(paths[0])] + Writes(paths[1..]);
      WrittenConcat([Write(paths[0])], Writes(paths[1..]));
      assert Written([Write(paths[0])]) == {paths[0]};
      assert paths == [paths[0]] + paths[1..];
    }
  }

  /** Saving message `rec` writes path `p`. */
  predicate SavesPath(account: string, rec: EmailRecord, outcomes: seq<bool>, p: string) {
    p == EmlPath(account, rec) || p in Downloaded(account, rec, outcomes)
  }

  lemma EmailWritten(account: string, rec: EmailRecord, outcomes: seq<bool>, p: string)
    ensures p in Written(EmailEffects(account, rec, outcomes)) <==> SavesPath(account, rec, outcomes, p)
  {
    var d := Downloaded(account, rec, outcomes);
    WrittenConcat([Write(EmlPath(account, rec))], Writes(d));
    assert Written([Write(EmlPath(account, rec))]) == {EmlPath(account, rec)};
    WrittenWrites(d, p);
  }

  lemma {:induction false} EmailsWritten(account: string, recs: seq<EmailRecord>, downloads: map<string, seq<bool>>, j: nat, p: string)
    requires j <= |recs|
    ensures p in Written(EmailsEffects(account, recs, downloads, j)) <==>
      exists i :: j <= i < |recs| && SavesPath(account, recs[i], OutcomesFor(downloads, recs[i].id), p)
    decreases |recs| - j
  {
    if j < |recs| {
      var one := EmailEffects(account, recs[j], OutcomesFor(downloads, recs[j].id));
      var rest := EmailsEffects(account, recs, downloads, j + 1);
      EmailChunkAt(account, recs, downloads, j);
      assert EmailsEffects(account, recs, downloads, j) == one + rest;
      EmailsWritten(account, recs, downloads, j + 1, p);
      WrittenConcat(one, rest);
      EmailWritten(account, recs[j], OutcomesFor(downloads, recs[j].id), p);
      if p in Written(one) {
        assert SavesPath(account, recs[j], OutcomesFor(downloads, recs[j].id), p);
      }
      if exists i :: j <= i < |recs| && SavesPath(account, recs[i], OutcomesFor(downloads, recs[i].id), p) {
        var i :| j <= i < |recs| && SavesPath(account, recs[i], OutcomesFor(downloads, recs[i].id), p);
        if i > j {
          assert p in Written(rest);
        }
      }
    }
  }

  /** Saving a folder writes exactly the .eml file of every message kept by
      the extraction loop and the attachments downloaded for it. */
  lemma FolderFilesMembers(account: string, f: Folder, view: FolderView, cutoff: int, p: string)
    requires view.Listed?
    ensures p in FolderFiles(account, f, view, cutoff) <==>
      exists rec :: rec in Extract(f.name, view.items, cutoff) && SavesPath(account, rec, OutcomesFor(view.downloads, rec.id), p)
  {
    var recs := Extract(f.name, view.items, cutoff);
    EmailsWritten(account, recs, view.downloads, 0, p);
    if p in FolderFiles(account, f, view, cutoff) {
      var i :| 0 <= i < |recs| && SavesPath(account, recs[i], OutcomesFor(view.downloads, recs[i].id), p);
      assert recs[i] in recs;
    }
    if exists rec :: rec in recs && SavesPath(account, rec, OutcomesFor(view.downloads, rec.id), p) {
      var rec :| rec in recs && SavesPath(account, rec, OutcomesFor(view.downloads, rec.id), p);
      var i :| 0 <= i < |recs| && recs[i] == rec;
    }
  }

  /** The files a save writes; none for a folder that cannot be opened. */
  function SaveFiles(save: Option<seq<Effect>>): set<string> {
    if save.Some? then Written(save.value) else {}
  }

  /** The files of the folders from index `k` on whose names are not in
      `cf`. */
  function Pending(folders: seq<Folder>, saves: seq<Option<seq<Effect>>>, k: nat, cf: seq<string>): set<string>
    requires k <= |folders| == |saves|
    decreases |folders| - k
  {
    if k == |folders| then {}
    else (if folders[k].name !in cf then SaveFiles(saves[k]) else {}) + Pending(folders, saves, k + 1, cf)
  }

  lemma {:induction false} PendingMembers(folders: seq<Folder>, saves: seq<Option<seq<Effect>>>, k: nat, cf: seq<string>, p: string)
    requires k <= |folders| == |saves|
    ensures p in Pending(folders, saves, k, cf) <==> exists j :: k <= j < |folders| && folders[j].name !in cf && p in SaveFiles(saves[j])
    decreases |folders| - k
  {
    if k < |folders| {
      PendingMembers(folders, saves, k + 1, cf, p);
      if p in Pending(folders, saves, k, cf) && !(folders[k].name !in cf && p in SaveFiles(saves[k])) {
        var j :| k + 1 <= j < |folders| && folders[j].name !in cf && p in SaveFiles(saves[j]);
        assert k <= j;
      }
      if exists j :: k <= j < |folders| && folders[j].name !in cf && p in SaveFiles(saves[j]) {
        var j :| k <= j < |folders| && folders[j].name !in cf && p in SaveFiles(saves[j]);
        if j > k {
          assert p in Pending(folders, saves, k + 1, cf);
        }
      }
    }
  }

  /** Fewer folders to go, or more names completed, leave fewer files
      pending. */
  lemma PendingShrinks(folders: seq<Folder>, saves: seq<Option<seq<Effect>>>, k: nat, k': nat, cf: seq<string>, cf': seq<string>)
    requires k <= k' <= |folders| == |saves|
    requires forall x :: x in cf ==> x in cf'
    ensures Pending(folders, saves, k', cf') <= Pending(folders, saves, k, cf)
  {
    forall p | p in Pending(folders, saves, k', cf') ensures p in Pending(folders, saves, k, cf) {
      PendingMembers(folders, saves, k', cf', p);
      var j :| k' <= j < |folders| && folders[j].name !in cf' && p in SaveFiles(saves[j]);
      PendingMembers(folders, saves, k, cf, p);
    }
  }

  /** Recording folder `k`'s name as completed after saving it loses no
      pending file: another folder of that name is saved alike. */
  lemma PendingAfterSave(folders: seq<Folder>, saves: seq<Option<seq<Effect>>>, k: nat, cf: seq<string>)
    requires k < |folders| && NamesDetermineSaves(folders, saves)
    ensures SaveFiles(saves[k]) + Pending(folders, saves, k + 1, cf + [folders[k].name])
         == SaveFiles(saves[k]) + Pending(folders, saves, k + 1, cf)
  {
    var cf' := cf + [folders[k].name];
    var before, after := Pending(folders, saves, k + 1, cf), Pending(folders, saves, k + 1, cf');
    PendingShrinks(folders, saves, k + 1, k + 1, cf, cf');
    forall p | p in before ensures p in SaveFiles(saves[k]) + after {
      PendingMembers(folders, saves, k + 1, cf, p);
      PendingMembers(folders, saves, k + 1, cf', p);
      var j :| k + 1 <= j < |folders| && folders[j].name !in cf && p in SaveFiles(saves[j]);
      if folders[j].name == folders[k].name {
        assert saves[j] == saves[k];
      }
    }
  }

  /** With names determining saves, the folder loop from `k` writes
      exactly the pending files: a later folder passed over because an
      earlier one of the same name was saved in this run loses nothing. */
  lemma {:induction false} WrittenSteps(folders: seq<Folder>, saves: seq<Option<seq<Effect>>>, k: nat, e: AccountProgress)
    requires k <= |folders| && NamesDetermineSaves(folders, saves)
    ensures Written(FolderSteps(folders, saves, k, e)) == Pending(folders, saves, k, e.completedFolders)
    decreases |folders| - k
  {
    if k < |folders| {
      if folders[k].name in e.completedFolders || saves[k].None? {
        WrittenSteps(folders, saves, k + 1, e);
      } else {
        var next := AccountProgress(k + 1, e.completedFolders + [folders[k].name]);
        var effs := saves[k].value;
        var rest := FolderSteps(folders, saves, k + 1, next);
        WrittenSteps(folders, saves, k + 1, next);
        WrittenConcat(effs + [Checkpoint(next)], rest);
        WrittenConcat(effs, [Checkpoint(next)]);
        assert Written([Checkpoint(next)]) == {};
        PendingAfterSave(folders, saves, k, e.completedFolders);
      }
    }
  }

  /** The last two effects of a complete run: `MarkCompleted`, then
      `DropEntry`. */
  lemma FinishFacts(s: Store, account: string)
    requires account !in s.completed
    ensures var r := Replay(s, account, [MarkCompleted, DropEntry]);
      r == Store(s.progress - {account}, s.completed + [account], s.files)
  {
    assert [MarkCompleted, DropEntry][..1] == [MarkCompleted];
  }

  /** Only the account's own entry differs between the two maps. */
  lemma SameOtherEntries(p: map<string, AccountProgress>, q: map<string, AccountProgress>, account: string)
    requires forall b :: b != account ==> (b in p <==> b in q)
    requires forall b :: b != account && b in p ==> p[b] == q[b]
    ensures p - {account} == q - {account}
  {
  }

  /** The folder loop, then the finishing effects, over any folder list
      whose names determine how folders are saved. */
  lemma StepsThenFinish(s: Store, account: string, folders: seq<Folder>, saves: seq<Option<seq<Effect>>>)
    requires account !in s.completed && NamesDetermineSaves(folders, saves) && SavesWriteOnly(saves)
    ensures var e := EntryOf(s.progress, account);
      var r := Replay(s, account, FolderSteps(folders, saves, 0, e) + [MarkCompleted, DropEntry]);
      && r.completed == s.completed + [account]
      && r.progress == s.progress - {account}
      && r.files == s.files + Pending(folders, saves, 0, e.completedFolders)
  {
    var e := EntryOf(s.progress, account);
    var steps := FolderSteps(folders, saves, 0, e);
    var mid := Replay(s, account, steps);
    FolderStepsSaving(folders, saves, 0, e);
    ReplayFacts(s, account, steps);
    WrittenSteps(folders, saves, 0, e);
    ReplayConcat(s, account, steps, [MarkCompleted, DropEntry]);
    FinishFacts(mid, account);
    SameOtherEntries(mid.progress, s.progress, account);
  }

  /** A complete run of an account not yet completed: the account is
      appended to the completed list, its progress entry is gone, the
      other entries are as they were, and the files gained are exactly those
      of the folders not recorded as completed that could be opened. */
  lemma FullRunCompletesAccount(s: Store, account: string, m: Mailbox, cutoff: int)
    requires account !in s.completed
    ensures var r := Replay(s, account, AccountTrace(s, account, true, m, cutoff));
      && (!InboxShown(m.selectors) ==> r == s)
      && (InboxShown(m.selectors) ==>
            && r.completed == s.completed + [account]
            && r.progress == s.progress - {account}
            && var folders := FolderList(m.selectors, m.labelLinks);
               r.files == s.files + Pending(folders, FolderSaves(account, folders, m, cutoff), 0, EntryOf(s.progress, account).completedFolders))
  {
    if InboxShown(m.selectors) {
      ListSavesFacts(account, m, cutoff);
      var folders := FolderList(m.selectors, m.labelLinks);
      StepsThenFinish(s, account, folders, FolderSaves(account, folders, m, cutoff));
    }
  }

  /** What a folder of the list saves is what `FolderFilesMembers`
      describes. */
  lemma SaveFilesOfFolder(account: string, folders: seq<Folder>, m: Mailbox, cutoff: int, j: nat)
    requires j < |folders| && ViewOf(m, folders[j]).Listed?
    ensures SaveFiles(FolderSaves(account, folders, m, cutoff)[j]) == FolderFiles(account, folders[j], ViewOf(m, folders[j]), cutoff)
  {
  }

  /** Saving folder `f`, which opened as `view`, writes `p`: the .eml file
      or a downloaded attachment of a message the extraction loop keeps. */
  predicate KeptPath(account: string, f: Folder, view: FolderView, cutoff: int, p: string) {
    view.Listed? &&
    exists rec :: rec in Extract(f.name, view.items, cutoff) && SavesPath(account, rec, OutcomesFor(view.downloads, rec.id), p)
  }

  /** A complete run gains exactly the .eml files and downloaded
      attachments of the messages kept in the folders that could be opened
      and whose names were not recorded as completed. */
  lemma FullRunFiles(s: Store, account: string, m: Mailbox, cutoff: int, p: string)
    requires account !in s.completed
    ensures var r := Replay(s, account, AccountTrace(s, account, true, m, cutoff));
      var folders := FolderList(m.selectors, m.labelLinks);
      var cf := EntryOf(s.progress, account).completedFolders;
      InboxShown(m.selectors) ==>
        (p in r.files <==>
           || p in s.files
           || exists j :: 0 <= j < |folders| && folders[j].name !in cf && KeptPath(account, folders[j], ViewOf(m, folders[j]), cutoff, p))
  {
    FullRunCompletesAccount(s, account, m, cutoff);
    var folders := FolderList(m.selectors, m.labelLinks);
    var saves := FolderSaves(account, folders, m, cutoff);
    var cf := EntryOf(s.progress, account).completedFolders;
    PendingMembers(folders, saves, 0, cf, p);
    if p in Pending(folders, saves, 0, cf) {
      var j :| 0 <= j < |folders| && folders[j].name !in cf && p in SaveFiles(saves[j]);
      SaveFilesOfFolder(account, folders, m, cutoff, j);
      FolderFilesMembers(account, folders[j], ViewOf(m, folders[j]), cutoff, p);
    }
    if exists j :: 0 <= j < |folders| && folders[j].name !in cf && KeptPath(account, folders[j], ViewOf(m, folders[j]), cutoff, p) {
      var j :| 0 <= j < |folders| && folders[j].name !in cf && KeptPath(account, folders[j], ViewOf(m, folders[j]), cutoff, p);
      SaveFilesOfFolder(account, folders, m, cutoff, j);
      FolderFilesMembers(account, folders[j], ViewOf(m, folders[j]), cutoff, p);
    }
  }

  lemma {:induction false} WrittenPrefix(x: seq<Effect>, n: nat)
    requires n <= |x|
    ensures Written(x[..n]) <= Written(x)
  {
    assert x == x[..n] + x[n..];
    WrittenConcat(x[..n], x[n..]);
  }

  /** The progress entry saved by the last checkpoint among `effs`, or `e`
      when there is none. */
  function LastEntry(effs: seq<Effect>, e: AccountProgress): AccountProgress
    decreases |effs|
  {
    if effs == [] then e
    else if effs[|effs| - 1].Checkpoint? then effs[|effs| - 1].entry
    else LastEntry(effs[..|effs| - 1], e)
  }

  lemma {:induction false} LastEntryConcat(x: seq<Effect>, y: seq<Effect>, e: AccountProgress)
    ensures LastEntry(x + y, e) == LastEntry(y, LastEntry(x, e))
    decreases |y|
  {
    if y == [] {
      assert x + y == x;
    } else {
      assert (x + y)[..|x + y| - 1] == x + y[..|y| - 1];
      LastEntryConcat(x, y[..|y| - 1], e);
    }
  }

  lemma {:induction false} LastEntryOfWrites(x: seq<Effect>, e: AccountProgress)
    requires OnlyWrites(x)
    ensures LastEntry(x, e) == e
    decreases |x|
  {
    if x != [] {
      assert OnlyWrites(x[..|x| - 1]);
      LastEntryOfWrites(x[..|x| - 1], e);
    }
  }

  /** While only files and checkpoints are written, the account's progress
      entry is the last one saved: an exception in the folder loop leaves
      progress at the last checkpoint. */
  lemma {:induction false} ReplayEntry(s: Store, account: string, effs: seq<Effect>)
    requires Saving(effs)
    ensures EntryOf(Replay(s, account, effs).progress, account) == LastEntry(effs, EntryOf(s.progress, account))
    decreases |effs|
  {
    if effs != [] {
      assert Saving(effs[..|effs| - 1]);
      ReplayEntry(s, account, effs[..|effs| - 1]);
    }
  }

  /** Cutting the folder loop from folder `k` after `n` effects: the entry
      saved last extends the starting one, and the files written so far
      together with the files still pending under that entry are the files
      pending at the start. */
  predicate CutKeepsPending(folders: seq<Folder>, saves: seq<Option<seq<Effect>>>, k: nat, e: AccountProgress, n: nat)
    requires k <= |folders| == |saves| && n <= |FolderSteps(folders, saves, k, e)|
  {
    var steps := FolderSteps(folders, saves, k, e);
    var e' := LastEntry(steps[..n], e);
    && e.completedFolders <= e'.completedFolders
    && Written(steps[..n]) + Pending(folders, saves, k, e'.completedFolders) == Pending(folders, saves, k, e.completedFolders)
  }

  /** Every cut of the folder loop keeps the pending files. */
  lemma {:induction false} PrefixThenPending(folders: seq<Folder>, saves: seq<Option<seq<Effect>>>, k: nat, e: AccountProgress, n: nat)
    requires k <= |folders| && NamesDetermineSaves(folders, saves) && SavesWriteOnly(saves)
    requires n <= |FolderSteps(folders, saves, k, e)|
    ensures CutKeepsPending(folders, saves, k, e, n)
    decreases |folders| - k
  {
    var steps := FolderSteps(folders, saves, k, e);
    if k == |folders| {
      assert steps[..n] == [];
    } else if folders[k].name in e.completedFolders || saves[k].None? {
      PrefixThenPending(folders, saves, k + 1, e, n);
      var e' := LastEntry(steps[..n], e);
      if folders[k].name in e.completedFolders {
        var i :| 0 <= i < |e.completedFolders| && e.completedFolders[i] == folders[k].name;
        assert e'.completedFolders[i] == folders[k].name;
      }
    } else {
      var next := AccountProgress(k + 1, e.completedFolders + [folders[k].name]);
      if n > |saves[k].value| {
        assert steps == saves[k].value + [Checkpoint(next)] + FolderSteps(folders, saves, k + 1, next);
        PrefixThenPending(folders, saves, k + 1, next, n - |saves[k].value| - 1);
      }
      CutInSavedFolder(folders, saves, k, e, n);
    }
  }

  /** The step of `PrefixThenPending` at a folder that is saved: a cut
      inside its writes, or a cut in the rest of the loop after its
      checkpoint. */
  lemma CutInSavedFolder(folders: seq<Folder>, saves: seq<Option<seq<Effect>>>, k: nat, e: AccountProgress, n: nat)
    requires k < |folders| && NamesDetermineSaves(folders, saves) && SavesWriteOnly(saves)
    requires folders[k].name !in e.completedFolders && saves[k].Some?
    requires n <= |FolderSteps(folders, saves, k, e)|
    requires var next := AccountProgress(k + 1, e.completedFolders + [folders[k].name]);
      n > |saves[k].value| ==>
        n - |saves[k].value| - 1 <= |FolderSteps(folders, saves, k + 1, next)|
        && CutKeepsPending(folders, saves, k + 1, next, n - |saves[k].value| - 1)
    ensures CutKeepsPending(folders, saves, k, e, n)
  {
    var steps := FolderSteps(folders, saves, k, e);
    var next := AccountProgress(k + 1, e.completedFolders + [folders[k].name]);
    var effs := saves[k].value;
    var rest := FolderSteps(folders, saves, k + 1, next);
    assert steps == effs + [Checkpoint(next)] + rest;
    if n <= |effs| {
      assert steps[..n] == effs[..n];
      assert OnlyWrites(effs[..n]);
      LastEntryOfWrites(effs[..n], e);
      WrittenPrefix(effs, n);
    } else {
      var n' := n - |effs| - 1;
      var e' := LastEntry(rest[..n'], next);
      assert steps[..n] == (effs + [Checkpoint(next)]) + rest[..n'];
      LastEntryConcat(effs + [Checkpoint(next)], rest[..n'], e);
      WrittenConcat(effs + [Checkpoint(next)], rest[..n']);
      WrittenConcat(effs, [Checkpoint(next)]);
      assert Written([Checkpoint(next)]) == {};
      PendingAfterSave(folders, saves, k, e.completedFolders);
      assert e'.completedFolders[|e.completedFolders|] == folders[k].name;
    }
  }

  /** `again` ends where `full` ends, except possibly for the account's own
      progress entry when `stale`. */
  predicate SameEnd(again: Store, full: Store, account: string, stale: bool) {
    && again.files == full.files
    && again.completed == full.completed
    && again.progress - {account} == full.progress - {account}
    && (!stale ==> again.progress == full.progress)
  }

  /** Interrupted inside the folder loop: the account is not yet completed,
      and the next run saves exactly the files still missing. */
  lemma ResumeInsideLoop(s0: Store, account: string, folders: seq<Folder>, saves: seq<Option<seq<Effect>>>, n: nat)
    requires account !in s0.completed && NamesDetermineSaves(folders, saves) && SavesWriteOnly(saves)
    requires n <= |FolderSteps(folders, saves, 0, EntryOf(s0.progress, account))|
    ensures var steps := FolderSteps(folders, saves, 0, EntryOf(s0.progress, account));
      var s1 := Replay(s0, account, steps[..n]);
      && account !in s1.completed
      && SameEnd(Replay(s1, account, FolderSteps(folders, saves, 0, EntryOf(s1.progress, account)) + [MarkCompleted, DropEntry]),
                 Replay(s0, account, steps + [MarkCompleted, DropEntry]), account, false)
  {
    var e0 := EntryOf(s0.progress, account);
    var steps := FolderSteps(folders, saves, 0, e0);
    var s1 := Replay(s0, account, steps[..n]);
    StepsThenFinish(s0, account, folders, saves);
    FolderStepsSaving(folders, saves, 0, e0);
    assert Saving(steps[..n]);
    ReplayFacts(s0, account, steps[..n]);
    ReplayEntry(s0, account, steps[..n]);
    PrefixThenPending(folders, saves, 0, e0, n);
    StepsThenFinish(s1, account, folders, saves);
    SameOtherEntries(s1.progress, s0.progress, account);
  }

  /** Interrupted after the folder loop: the account is already marked
      completed, so the next run does nothing; the only difference from a
      full run is the entry left when `DropEntry` did not happen. */
  lemma ResumeAfterLoop(s0: Store, account: string, steps: seq<Effect>, n: nat)
    requires account !in s0.completed && Saving(steps) && |steps| < n
    ensures var s1 := Replay(s0, account, Truncate(steps + [MarkCompleted, DropEntry], Some(n)));
      && account in s1.completed
      && SameEnd(s1, Replay(s0, account, steps + [MarkCompleted, DropEntry]), account, true)
  {
    var trace := steps + [MarkCompleted, DropEntry];
    ReplayFacts(s0, account, steps);
    ReplayConcat(s0, account, steps, [MarkCompleted, DropEntry]);
    assert [MarkCompleted, DropEntry][..1] == [MarkCompleted];
    if n == |steps| + 1 {
      assert Truncate(trace, Some(n)) == steps + [MarkCompleted];
      ReplaySnoc(s0, account, steps, MarkCompleted);
    } else {
      assert Truncate(trace, Some(n)) == trace;
    }
  }

  /** A run interrupted after any number `n` of effects (an exception or
      the process being killed), followed by an uninterrupted run against
      the same mailbox, leaves the same files and the same completed list as
      one uninterrupted run, and the same progress map; the one exception is
      a run cut between marking the account completed and dropping its
      entry, whose stale entry no later run removes. */
  lemma ResumeAfterInterruption(s0: Store, account: string, m: Mailbox, cutoff: int, n: nat)
    ensures var full := Replay(s0, account, AccountTrace(s0, account, true, m, cutoff));
      var s1 := Replay(s0, account, Truncate(AccountTrace(s0, account, true, m, cutoff), Some(n)));
      var again := Replay(s1, account, AccountTrace(s1, account, true, m, cutoff));
      SameEnd(again, full, account, account in s1.completed)
  {
    if account !in s0.completed {
      var folders := FolderList(m.selectors, m.labelLinks);
      var saves := FolderSaves(account, folders, m, cutoff);
      var steps := FolderSteps(folders, saves, 0, EntryOf(s0.progress, account));
      ListSavesFacts(account, m, cutoff);
      if n <= |steps| {
        assert Truncate(steps + [MarkCompleted, DropEntry], Some(n)) == steps[..n];
        ResumeInsideLoop(s0, account, folders, saves, n);
      } else {
        FolderStepsSaving(folders, saves, 0, EntryOf(s0.progress, account));
        ResumeAfterLoop(s0, account, steps, n);
      }
    }
  }

  /** Checkpoint `c`, saved by the folder loop started at index `k` with
      entry `e`, records the folder at index `c.currentFolder - 1`: a folder
      at or after `k` that could be opened and whose name was not yet
      completed; its completed list is the earlier one extended by further
      names, ending in that folder's, and has no repeated name if the
      earlier one had none. */
  predicate CheckpointFor(folders: seq<Folder>, saves: seq<Option<seq<Effect>>>, k: nat, e: AccountProgress, c: AccountProgress)
    requires |saves| == |folders|
  {
    && k < c.currentFolder <= |folders|
    && e.completedFolders < c.completedFolders
    && c.completedFolders[|c.completedFolders| - 1] == folders[c.currentFolder - 1].name
    && folders[c.currentFolder - 1].name !in e.completedFolders
    && saves[c.currentFolder - 1].Some?
    && (NoDup(e.completedFolders) ==> NoDup(c.completedFolders))
  }

  /** The checkpoint written right after saving folder `k`. */
  lemma CheckpointHere(folders: seq<Folder>, saves: seq<Option<seq<Effect>>>, k: nat, e: AccountProgress)
    requires k < |folders| == |saves| && folders[k].name !in e.completedFolders && saves[k].Some?
    ensures CheckpointFor(folders, saves, k, e, AccountProgress(k + 1, e.completedFolders + [folders[k].name]))
  {
    var cf, cf' := e.completedFolders, e.completedFolders + [folders[k].name];
    assert cf'[..|cf|] == cf;
    if NoDup(cf) {
      forall i, j | 0 <= i < j < |cf'| ensures cf'[i] != cf'[j] {
        if j == |cf| {
          assert cf[i] in cf;
        }
      }
    }
  }

  /** A later checkpoint, seen from before the save of folder `k`. */
  lemma CheckpointThroughSave(folders: seq<Folder>, saves: seq<Option<seq<Effect>>>, k: nat, e: AccountProgress, c: AccountProgress)
    requires k < |folders| == |saves| && folders[k].name !in e.completedFolders && saves[k].Some?
    requires CheckpointFor(folders, saves, k + 1, AccountProgress(k + 1, e.completedFolders + [folders[k].name]), c)
    ensures CheckpointFor(folders, saves, k, e, c)
  {
    var cf, cf' := e.completedFolders, e.completedFolders + [folders[k].name];
    CheckpointHere(folders, saves, k, e);
    assert c.completedFolders[..|cf|] == cf'[..|cf|] == cf;
    assert c.completedFolders[|cf|] == folders[k].name;
  }

  /** Every checkpoint of the folder loop: `current_folder = idx + 1` for
      the folder just saved, whose name is appended to `completed_folders`
      without repeating one. */
  lemma {:induction false} CheckpointFacts(folders: seq<Folder>, saves: seq<Option<seq<Effect>>>, k: nat, e: AccountProgress, i: nat)
    requires k <= |folders| == |saves| && SavesWriteOnly(saves)
    requires i < |FolderSteps(folders, saves, k, e)|
    ensures var steps := FolderSteps(folders, saves, k, e);
      steps[i].Checkpoint? ==> CheckpointFor(folders, saves, k, e, steps[i].entry)
    decreases |folders| - k
  {
    var steps := FolderSteps(folders, saves, k, e);
    if folders[k].name in e.completedFolders || saves[k].None? {
      CheckpointFacts(folders, saves, k + 1, e, i);
    } else {
      var next := AccountProgress(k + 1, e.completedFolders + [folders[k].name]);
      var effs := saves[k].value;
      var rest := FolderSteps(folders, saves, k + 1, next);
      assert steps == effs + ([Checkpoint(next)] + rest);
      if i < |effs| {
        assert steps[i] == effs[i];
      } else if i == |effs| {
        assert steps[i] == Checkpoint(next);
        CheckpointHere(folders, saves, k, e);
      } else {
        assert steps[i] == rest[i - |effs| - 1];
        CheckpointFacts(folders, saves, k + 1, next, i - |effs| - 1);
        if steps[i].Checkpoint? {
          CheckpointThroughSave(folders, saves, k, e, steps[i].entry);
        }
      }
    }
  }

  /** A folder's checkpoint is saved only after all of its files. */
  lemma {:induction false} CheckpointAfterFiles(folders: seq<Folder>, saves: seq<Option<seq<Effect>>>, k: nat, e: AccountProgress, i: nat)
    requires k <= |folders| == |saves| && SavesWriteOnly(saves)
    requires i < |FolderSteps(folders, saves, k, e)| && FolderSteps(folders, saves, k, e)[i].Checkpoint?
    ensures var steps := FolderSteps(folders, saves, k, e);
      var c := steps[i].entry;
      0 < c.currentFolder <= |folders| && SaveFiles(saves[c.currentFolder - 1]) <= Written(steps[..i])
    decreases |folders| - k
  {
    var steps := FolderSteps(folders, saves, k, e);
    CheckpointFacts(folders, saves, k, e, i);
    if folders[k].name in e.completedFolders || saves[k].None? {
      CheckpointAfterFiles(folders, saves, k + 1, e, i);
    } else {
      var next := AccountProgress(k + 1, e.completedFolders + [folders[k].name]);
      var effs := saves[k].value;
      var rest := FolderSteps(folders, saves, k + 1, next);
      assert steps == effs + ([Checkpoint(next)] + rest);
      if i < |effs| {
        assert false;
      } else if i == |effs| {
        assert steps[..i] == effs;
      } else {
        var i' := i - |effs| - 1;
        assert steps[i] == rest[i'];
        CheckpointAfterFiles(folders, saves, k + 1, next, i');
        assert steps[..i] == (effs + [Checkpoint(next)]) + rest[..i'];
        WrittenConcat(effs + [Checkpoint(next)], rest[..i']);
      }
    }
  }

  /** Later checkpoints record strictly more completed folders and a
      strictly later folder index: no folder is checkpointed twice. */
  lemma {:induction false} CheckpointsAdvance(folders: seq<Folder>, saves: seq<Option<seq<Effect>>>, k: nat, e: AccountProgress, i: nat, j: nat)
    requires k <= |folders| == |saves| && SavesWriteOnly(saves)
    requires i < j < |FolderSteps(folders, saves, k, e)|
    ensures var steps := FolderSteps(folders, saves, k, e);
      steps[i].Checkpoint? && steps[j].Checkpoint? ==>
        && steps[i].entry.completedFolders < steps[j].entry.completedFolders
        && steps[i].entry.currentFolder < steps[j].entry.currentFolder
    decreases |folders| - k
  {
    var steps := FolderSteps(folders, saves, k, e);
    if folders[k].name in e.completedFolders || saves[k].None? {
      CheckpointsAdvance(folders, saves, k + 1, e, i, j);
    } else {
      var next := AccountProgress(k + 1, e.completedFolders + [folders[k].name]);
      var effs := saves[k].value;
      var rest := FolderSteps(folders, saves, k + 1, next);
      assert steps == effs + ([Checkpoint(next)] + rest);
      if i < |effs| {
        assert steps[i] == effs[i];
      } else if i == |effs| {
        assert steps[i] == Checkpoint(next);
        assert steps[j] == rest[j - |effs| - 1];
        CheckpointFacts(folders, saves, k + 1, next, j - |effs| - 1);
      } else {
        assert steps[i] == rest[i - |effs| - 1];
        assert steps[j] == rest[j - |effs| - 1];
        CheckpointsAdvance(folders, saves, k + 1, next, i - |effs| - 1, j - |effs| - 1);
      }
    }
  }

  /** `current_folder` is written but never read: the loop depends on the
      entry only through its completed folders. */
  lemma {:induction false} CurrentFolderNeverRead(folders: seq<Folder>, saves: seq<Option<seq<Effect>>>, k: nat, e: AccountProgress, e': AccountProgress)
    requires k <= |folders| == |saves| && e.completedFolders == e'.completedFolders
    ensures FolderSteps(folders, saves, k, e) == FolderSteps(folders, saves, k, e')
    decreases |folders| - k
  {
    if k < |folders| && (folders[k].name in e.completedFolders || saves[k].None?) {
      CurrentFolderNeverRead(folders, saves, k + 1, e, e');
    }
  }

  /** A folder whose name is recorded as completed is never saved again:
      the loop is the same whatever saving such a folder would write. */
  lemma {:induction false} CompletedFoldersNotRevisited(folders: seq<Folder>, saves: seq<Option<seq<Effect>>>, saves': seq<Option<seq<Effect>>>, k: nat, e: AccountProgress)
    requires k <= |folders| == |saves| == |saves'|
    requires forall j :: k <= j < |folders| && folders[j].name !in e.completedFolders ==> saves[j] == saves'[j]
    ensures FolderSteps(folders, saves, k, e) == FolderSteps(folders, saves', k, e)
    decreases |folders| - k
  {
    if k < |folders| {
      if folders[k].name in e.completedFolders || saves[k].None? {
        CompletedFoldersNotRevisited(folders, saves, saves', k + 1, e);
      } else {
        var next := AccountProgress(k + 1, e.completedFolders + [folders[k].name]);
        CompletedFoldersNotRevisited(folders, saves, saves', k + 1, next);
      }
    }
  }

  /** Two mailboxes that differ only in folders the account's progress
      entry records as completed give the same run. */
  lemma CompletedFoldersNotOpened(s: Store, account: string, loginOk: bool, m: Mailbox, m': Mailbox, cutoff: int)
    requires m.selectors == m'.selectors && m.labelLinks == m'.labelLinks
    requires var folders := FolderList(m.selectors, m.labelLinks);
      forall j :: 0 <= j < |folders| && folders[j].name !in EntryOf(s.progress, account).completedFolders ==>
        ViewOf(m, folders[j]) == ViewOf(m', folders[j])
    ensures AccountTrace(s, account, loginOk, m, cutoff) == AccountTrace(s, account, loginOk, m', cutoff)
  {
    var folders := FolderList(m.selectors, m.labelLinks);
    CompletedFoldersNotRevisited(folders, FolderSaves(account, folders, m, cutoff), FolderSaves(account, folders, m', cutoff),
      0, EntryOf(s.progress, account));
  }

  /** What the scraper keeps on disk is well formed: no account is listed
      twice as completed and no progress entry lists a folder twice. */
  predicate ValidStore(s: Store) {
    && NoDup(s.completed)
    && forall b :: b in s.progress ==> NoDup(s.progress[b].completedFolders)
  }

  lemma {:induction false} ReplayKeepsValid(s: Store, account: string, effs: seq<Effect>)
    requires ValidStore(s)
    requires forall i :: 0 <= i < |effs| && effs[i].Checkpoint? ==> NoDup(effs[i].entry.completedFolders)
    ensures ValidStore(Replay(s, account, effs))
    decreases |effs|
  {
    if effs != [] {
      ReplayKeepsValid(s, account, effs[..|effs| - 1]);
      MarkCompletedFacts(Replay(s, account, effs[..|effs| - 1]).completed, account);
    }
  }

  /** Any run, interrupted anywhere or not, keeps the store well formed. */
  lemma RunKeepsStoreValid(s: Store, account: string, loginOk: bool, m: Mailbox, cutoff: int, interrupt: Option<nat>)
    requires ValidStore(s)
    ensures ValidStore(Replay(s, account, Truncate(AccountTrace(s, account, loginOk, m, cutoff), interrupt)))
  {
    var trace := AccountTrace(s, account, loginOk, m, cutoff);
    var cut := Truncate(trace, interrupt);
    if trace != [] {
      var folders := FolderList(m.selectors, m.labelLinks);
      var saves := FolderSaves(account, folders, m, cutoff);
      var e := EntryOf(s.progress, account);
      var steps := FolderSteps(folders, saves, 0, e);
      ListSavesFacts(account, m, cutoff);
      forall i | 0 <= i < |cut| && cut[i].Checkpoint? ensures NoDup(cut[i].entry.completedFolders) {
        assert cut[i] == trace[i];
        if i < |steps| {
          assert trace[i] == steps[i];
          CheckpointFacts(folders, saves, 0, e, i);
        }
      }
    }
    ReplayKeepsValid(s, account, cut);
  }
}
