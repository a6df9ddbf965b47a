/** `scrape_account` and the resumable state it keeps on disk: the
    per-account progress map (`progress.json`), the list of completed
    accounts (`completed_accounts.json`) and the files written under the
    base directory.

    A run is specified by the sequence of persistent effects it performs.
    An exception escaping the `try`, or the process being killed, ends the
    run after some number of effects; the state is then the replay of that
    prefix of the run's effect sequence. */
module Orchestrator {
  import opened Strings
  import opened Extraction
  import opened Folders
  import opened Storage

  /** One account's entry in the progress map. `currentFolder` is written
      but never read back. */
  datatype AccountProgress = AccountProgress(currentFolder: nat, completedFolders: seq<string>)

  /** `progress.get(email, {'current_folder': 0, 'completed_folders': []})`. */
  function EntryOf(progress: map<string, AccountProgress>, account: string): AccountProgress {
    if account in progress then progress[account] else AccountProgress(0, [])
  }

  /** What the browser shows for a folder: navigation times out, or the
      folder's message list together with, per message id, whether each
      attachment element's download completes. */
  datatype FolderView = Unreachable | Listed(items: seq<Item>, downloads: map<string, seq<bool>>)

  /** An account's mailbox as the scraper sees it after logging in. */
  datatype Mailbox = Mailbox(selectors: set<string>, labelLinks: seq<TextRead>, views: map<Folder, FolderView>)

  function ViewOf(mailbox: Mailbox, f: Folder): FolderView {
    if f in mailbox.views then mailbox.views[f] else Unreachable
  }

  function OutcomesFor(downloads: map<string, seq<bool>>, id: string): seq<bool> {
    if id in downloads then downloads[id] else []
  }

  /** A persistent effect of one account's run. */
  datatype Effect =
    | Write(path: string)                // an .eml file or a downloaded attachment
    | Checkpoint(entry: AccountProgress) // `progress[email] = ...; save_progress(progress)`
    | MarkCompleted                      // `save_completed_account(email)`
    | DropEntry                          // `del progress[email]; save_progress(progress)`

  /** Everything a run leaves on disk. */
  datatype Store = Store(progress: map<string, AccountProgress>, completed: seq<string>, files: set<string>)

  predicate NoDup(xs: seq<string>) {
    forall i, j :: 0 <= i < j < |xs| ==> xs[i] != xs[j]
  }

  /** The completed-accounts list after `save_completed_account`. */
  function MarkCompletedList(list: seq<string>, account: string): seq<string> {
    if account in list then list else list + [account]
  }

  /** `save_completed_account` extends the list by the account at the end,
      once: it keeps the old list as a prefix, gains nothing else, and never
      introduces a duplicate; marking an account already listed changes
      nothing, so marking twice is marking once. */
  lemma MarkCompletedFacts(list: seq<string>, account: string)
    ensures var r := MarkCompletedList(list, account);
      && list <= r && |r| <= |list| + 1
      && (forall x :: x in r <==> x in list || x == account)
      && (NoDup(list) ==> NoDup(r))
      && (account in list ==> r == list)
      && MarkCompletedList(r, account) == r
  {
  }

  function Apply(s: Store, account: string, e: Effect): Store {
    match e
    case Write(p) => s.(files := s.files + {p})
    case Checkpoint(entry) => s.(progress := s.progress[account := entry])
    case MarkCompleted => s.(completed := MarkCompletedList(s.completed, account))
    case DropEntry => s.(progress := s.progress - {account})
  }

  /** The store after performing `effs` in order. */
  function Replay(s: Store, account: string, effs: seq<Effect>): Store
    decreases |effs|
  {
    if effs == [] then s else Apply(Replay(s, account, effs[..|effs| - 1]), account, effs[|effs| - 1])
  }

  /** The effects performed when the run is interrupted after `interrupt`
      of them, or not at all. */
  function Truncate(trace: seq<Effect>, interrupt: Option<nat>): seq<Effect> {
    if interrupt.Some? && interrupt.value <= |trace| then trace[..interrupt.value] else trace
  }

  function Writes(paths: seq<string>): seq<Effect> {
    if paths == [] then [] else [Write(paths[0])] + Writes(paths[1..])
  }

  /** Saving one message: its .eml file, then its downloaded attachments. */
  function EmailEffects(account: string, rec: EmailRecord, outcomes: seq<bool>): seq<Effect> {
    [Write(EmlPath(account, rec))] + Writes(Downloaded(account, rec, outcomes))
  }

  /** The effects of saving each message. */
  function EmailChunks(account: string, recs: seq<EmailRecord>, downloads: map<string, seq<bool>>): (r: seq<seq<Effect>>)
    ensures |r| == |recs|
  {
    if recs == [] then []
    else [EmailEffects(account, recs[0], OutcomesFor(downloads, recs[0].id))] + EmailChunks(account, recs[1..], downloads)
  }

  /** Chunk `j` is the effects of saving message `j`. */
  lemma {:induction false} EmailChunkAt(account: string, recs: seq<EmailRecord>, downloads: map<string, seq<bool>>, j: nat)
    requires j < |recs|
    ensures EmailChunks(account, recs, downloads)[j] == EmailEffects(account, recs[j], OutcomesFor(downloads, recs[j].id))
  {
    if j > 0 {
      EmailChunkAt(account, recs[1..], downloads, j - 1);
    }
  }

  function Flatten(chunks: seq<seq<Effect>>, j: nat): seq<Effect>
    requires j <= |chunks|
    decreases |chunks| - j
  {
    if j == |chunks| then [] else chunks[j] + Flatten(chunks, j + 1)
  }

  /** Saving messages `j` onwards. */
  function EmailsEffects(account: string, recs: seq<EmailRecord>, downloads: map<string, seq<bool>>, j: nat): seq<Effect>
    requires j <= |recs|
  {
    Flatten(EmailChunks(account, recs, downloads), j)
  }

  function FolderEffects(account: string, f: Folder, view: FolderView, cutoff: int): seq<Effect>
    requires view.Listed?
  {
    EmailsEffects(account, Extract(f.name, view.items, cutoff), view.downloads, 0)
  }

  /** What saving each folder of the list writes; `None` for a folder
      that cannot be opened. */
  function FolderSaves(account: string, folders: seq<Folder>, mailbox: Mailbox, cutoff: int): (r: seq<Option<seq<Effect>>>)
    ensures |r| == |folders|
    ensures forall j :: 0 <= j < |folders| ==> (r[j].None? <==> ViewOf(mailbox, folders[j]).Unreachable?)
  {
    seq(|folders|, j requires 0 <= j < |folders| =>
      var view := ViewOf(mailbox, folders[j]);
      if view.Unreachable? then None else Some(FolderEffects(account, folders[j], view, cutoff)))
  }

  /** The folder loop from index `k` on, with progress entry `e`, where
      `saves[j]` is what saving folder `j` writes: a folder whose name is
      already completed, or that cannot be opened, is passed over; any
      other is saved and then checkpointed. */
  function FolderSteps(folders: seq<Folder>, saves: seq<Option<seq<Effect>>>, k: nat, e: AccountProgress): seq<Effect>
    requires k <= |folders| == |saves|
    decreases |folders| - k
  {
    if k == |folders| then []
    else if folders[k].name in e.completedFolders || saves[k].None? then FolderSteps(folders, saves, k + 1, e)
    else
      var next := AccountProgress(k + 1, e.completedFolders + [folders[k].name]);
      saves[k].value + [Checkpoint(next)] + FolderSteps(folders, saves, k + 1, next)
  }

  /** The effects of an uninterrupted `scrape_account` run from store `s`,
      with the .eml and attachment names made single path segments (see
      `Storage.EmlFileName`). An account already completed, a failed login
      and a missing Inbox link (line 95) all end the run before it writes
      anything. */
  function AccountTrace(s: Store, account: string, loginOk: bool, mailbox: Mailbox, cutoff: int): seq<Effect> {
    if account in s.completed || !loginOk || !InboxShown(mailbox.selectors) then []
    else
      var folders := FolderList(mailbox.selectors, mailbox.labelLinks);
      FolderSteps(folders, FolderSaves(account, folders, mailbox, cutoff), 0, EntryOf(s.progress, account))
      + [MarkCompleted, DropEntry]
  }

  function Offset(o: Option<nat>, n: nat): Option<nat> {
    if o.None? then None else Some(o.value + n)
  }

  /** The earlier of two interruption points. */
  function Earliest(a: Option<nat>, b: Option<nat>): Option<nat> {
    if a.None? then b
    else if b.None? then a
    else if a.value <= b.value then a else b
  }

  /** As written, saving folder `f` raises at its first .eml file when the
      folder name contains '/' (`Storage.AsWrittenNameEscapesFolderDir`):
      line 329 opens a file in a directory that was never created. A folder
      that keeps no message writes nothing and does not raise. Other
      reasons the open can fail are not singled out here. */
  predicate CrashesAt(f: Folder, save: seq<Effect>) {
    '/' in f.name && save != []
  }

  /** Where in the folder loop from index `k`, with entry `e`, the first
      folder that raises starts: the number of effects performed before
      it, or `None` when no folder the loop saves raises. */
  function CrashFrom(folders: seq<Folder>, saves: seq<Option<seq<Effect>>>, k: nat, e: AccountProgress): (r: Option<nat>)
    requires k <= |folders| == |saves|
    decreases |folders| - k
  {
    if k == |folders| then None
    else if folders[k].name in e.completedFolders || saves[k].None? then CrashFrom(folders, saves, k + 1, e)
    else if CrashesAt(folders[k], saves[k].value) then Some(0)
    else
      var next := AccountProgress(k + 1, e.completedFolders + [folders[k].name]);
      Offset(CrashFrom(folders, saves, k + 1, next), |saves[k].value| + 1)
  }

  /** The point where the folder loop raises is one of its effects: the
      .eml write that raises. */
  lemma {:induction false} CrashWithinSteps(folders: seq<Folder>, saves: seq<Option<seq<Effect>>>, k: nat, e: AccountProgress)
    requires k <= |folders| == |saves|
    ensures var r := CrashFrom(folders, saves, k, e);
      r.Some? ==> r.value < |FolderSteps(folders, saves, k, e)|
    decreases |folders| - k
  {
    if k < |folders| {
      if folders[k].name in e.completedFolders || saves[k].None? {
        CrashWithinSteps(folders, saves, k + 1, e);
      } else if !CrashesAt(folders[k], saves[k].value) {
        CrashWithinSteps(folders, saves, k + 1, AccountProgress(k + 1, e.completedFolders + [folders[k].name]));
      }
    }
  }

  /** Where the run from store `s` raises, if it does. */
  function CrashPoint(s: Store, account: string, loginOk: bool, mailbox: Mailbox, cutoff: int): Option<nat> {
    if account in s.completed || !loginOk || !InboxShown(mailbox.selectors) then None
    else
      var folders := FolderList(mailbox.selectors, mailbox.labelLinks);
      CrashFrom(folders, FolderSaves(account, folders, mailbox, cutoff), 0, EntryOf(s.progress, account))
  }

  /** The effects of `scrape_account` as written: the folder loop stops
      where the first folder whose name contains '/' and that keeps a
      message raises, and then nothing is checkpointed and the account is
      not marked completed. */
  function AccountTraceAsWritten(s: Store, account: string, loginOk: bool, mailbox: Mailbox, cutoff: int): seq<Effect> {
    if account in s.completed || !loginOk || !InboxShown(mailbox.selectors) then []
    else
      var folders := FolderList(mailbox.selectors, mailbox.labelLinks);
      var saves := FolderSaves(account, folders, mailbox, cutoff);
      var e := EntryOf(s.progress, account);
      CrashWithinSteps(folders, saves, 0, e);
      match CrashFrom(folders, saves, 0, e)
      case None => FolderSteps(folders, saves, 0, e) + [MarkCompleted, DropEntry]
      case Some(c) => FolderSteps(folders, saves, 0, e)[..c]
  }

  lemma {:induction false} ReplayConcat(s: Store, account: string, x: seq<Effect>, y: seq<Effect>)
    ensures Replay(s, account, x + y) == Replay(Replay(s, account, x), account, y)
    decreases |y|
  {
    if y == [] {
      assert x + y == x;
    } else {
      var y' := y[..|y| - 1];
      assert (x + y)[..|x + y| - 1] == x + y';
      ReplayConcat(s, account, x, y');
    }
  }

  lemma ReplaySnoc(s: Store, account: string, x: seq<Effect>, e: Effect)
    ensures Replay(s, account, x + [e]) == Apply(Replay(s, account, x), account, e)
  {
    assert (x + [e])[..|x|] == x;
  }

  lemma WritesFrom(paths: seq<string>, m: nat)
    requires m < |paths|
    ensures Writes(paths[m..]) == [Write(paths[m])] + Writes(paths[m + 1..])
  {
    assert paths[m..][1..] == paths[m + 1..];
  }

  lemma PrefixCompose(x: seq<Effect>, p: seq<Effect>, y: seq<Effect>, z: seq<Effect>)
    requires p <= y
    ensures x + p <= x + (y + z)
  {
    assert (x + (y + z))[..|x + p|] == x + p;
  }




  lemma TruncateAfter(performed: seq<Effect>, tail: seq<Effect>, interrupt: Option<nat>)
    requires interrupt.Some? ==> |performed| <= interrupt.value
    ensures Truncate(performed + tail, interrupt)
         == performed + Truncate(tail, if interrupt.Some? then Some(interrupt.value - |performed|) else None)
  {
    if interrupt.Some? && interrupt.value <= |performed + tail| {
      assert (performed + tail)[..interrupt.value] == performed + tail[..interrupt.value - |performed|];
    }
  }

  /** The folder loop at a folder that is not yet completed and opens:
      the folder's effects and its checkpoint, then the rest of the loop. */
  lemma SavedFolderStep(account: string, folders: seq<Folder>, mailbox: Mailbox, cutoff: int, k: nat, e: AccountProgress)
    requires k < |folders| && folders[k].name !in e.completedFolders && ViewOf(mailbox, folders[k]).Listed?
    ensures var saves, next := FolderSaves(account, folders, mailbox, cutoff), AccountProgress(k + 1, e.completedFolders + [folders[k].name]);
      FolderSteps(folders, saves, k, e)
        == (FolderEffects(account, folders[k], ViewOf(mailbox, folders[k]), cutoff) + [Checkpoint(next)]) + FolderSteps(folders, saves, k + 1, next)
  {
    var saves := FolderSaves(account, folders, mailbox, cutoff);
    assert saves[k] == Some(FolderEffects(account, folders[k], ViewOf(mailbox, folders[k]), cutoff));
  }

  /** The folder loop at a folder it passes over: nothing happens there. */
  lemma PassedOver(folders: seq<Folder>, saves: seq<Option<seq<Effect>>>, k: nat, e: AccountProgress)
    requires k < |folders| == |saves| && (folders[k].name in e.completedFolders || saves[k].None?)
    ensures FolderSteps(folders, saves, k, e) == FolderSteps(folders, saves, k + 1, e)
    ensures CrashFrom(folders, saves, k, e) == CrashFrom(folders, saves, k + 1, e)
  {
  }

  /** Whether the folder loop raises at a folder it saves, and where. */
  lemma SavedFolderCrash(account: string, folders: seq<Folder>, mailbox: Mailbox, cutoff: int, k: nat, e: AccountProgress)
    requires k < |folders| && folders[k].name !in e.completedFolders && ViewOf(mailbox, folders[k]).Listed?
    ensures var saves, effs := FolderSaves(account, folders, mailbox, cutoff), FolderEffects(account, folders[k], ViewOf(mailbox, folders[k]), cutoff);
      CrashFrom(folders, saves, k, e)
        == if CrashesAt(folders[k], effs) then Some(0)
           else Offset(CrashFrom(folders, saves, k + 1, AccountProgress(k + 1, e.completedFolders + [folders[k].name])), |effs| + 1)
  {
    var saves := FolderSaves(account, folders, mailbox, cutoff);
    assert saves[k] == Some(FolderEffects(account, folders[k], ViewOf(mailbox, folders[k]), cutoff));
  }

  /** Saving messages writes something exactly when there is a message. */
  lemma EmailsEffectsEmpty(account: string, recs: seq<EmailRecord>, downloads: map<string, seq<bool>>)
    ensures EmailsEffects(account, recs, downloads, 0) == [] <==> recs == []
  {
    var chunks := EmailChunks(account, recs, downloads);
    if recs != [] {
      EmailChunkAt(account, recs, downloads, 0);
      assert Flatten(chunks, 0) == chunks[0] + Flatten(chunks, 1);
    }
  }

  /** A folder loop cut short, by the interruption or by a folder that
      raises, has performed the as-written trace cut at the interruption. */
  lemma StoppedRun(steps: seq<Effect>, performed: seq<Effect>, interrupt: Option<nat>, crash: Option<nat>)
    requires performed <= steps
    requires crash.Some? ==> |performed| <= crash.value < |steps|
    requires interrupt.Some? ==> |performed| <= interrupt.value
    requires (interrupt.Some? && interrupt.value == |performed|) || crash == Some(|performed|)
    ensures Truncate(if crash.Some? then steps[..crash.value] else steps + [MarkCompleted, DropEntry], interrupt) == performed
  {
    var n := |performed|;
    assert performed == steps[..n];
    if crash.None? {
      assert (steps + [MarkCompleted, DropEntry])[..n] == steps[..n];
    }
  }

  /** A turn at a folder the loop saves: `effs` are its save effects,
      `next` the entry its checkpoint records, `crashes` whether it
      raises, and the turn performed `p` and `stopped` or not. */
  lemma SavedTurn(here: seq<Effect>, after: seq<Effect>, effs: seq<Effect>, next: AccountProgress,
                  ck: Option<nat>, cnext: Option<nat>, crashes: bool, p: seq<Effect>, stopped: bool, hit: bool)
    requires here == (effs + [Checkpoint(next)]) + after
    requires ck == if crashes then Some(0) else Offset(cnext, |effs| + 1)
    requires p <= effs + [Checkpoint(next)]
    requires crashes ==> stopped && p == []
    requires stopped ==> hit || crashes
    requires stopped ==> |p| <= |effs|
    requires !stopped ==> p == effs + [Checkpoint(next)]
    ensures Turn(here, after, ck, cnext, p, stopped, hit)
  {
    PrefixCompose([], p, effs + [Checkpoint(next)], after);
    assert [] + p == p;
  }

  /** Saving the messages `emails` of `folder`, whose effects are `effs`:
      `SaveEmails` stops at once with nothing done when the first id
      contains '/', and otherwise only when interrupted or at an id
      containing '/'; every id contains '/' exactly when the folder name
      does. So the folder raises exactly as `CrashesAt` says. */
  lemma SavedMessagesCrash(folder: Folder, emails: seq<EmailRecord>, effs: seq<Effect>, stop: bool, performed: seq<Effect>,
                           at: nat, hit: bool)
    requires effs == [] <==> emails == []
    requires emails != [] ==> ('/' in emails[0].id <==> '/' in folder.name)
    requires at < |emails| ==> ('/' in emails[at].id <==> '/' in folder.name)
    requires emails != [] && '/' in emails[0].id ==> stop && performed == []
    requires stop ==> hit || (at < |emails| && '/' in emails[at].id)
    ensures CrashesAt(folder, effs) ==> stop && performed == []
    ensures stop ==> hit || CrashesAt(folder, effs)
  {
  }

  /** One turn of the folder loop performed `p` and `stopped` or not,
      where `here` and `cHere` are the loop's effects and crash point from
      this folder, `after` and `cAfter` those from the next, and `hit` says
      whether the interruption fell right after `p`. */
  predicate Turn(here: seq<Effect>, after: seq<Effect>, cHere: Option<nat>, cAfter: Option<nat>,
                 p: seq<Effect>, stopped: bool, hit: bool)
  {
    && p <= here
    && (!stopped ==> here == p + after && cHere == Offset(cAfter, |p|))
    && (stopped ==> (cHere.Some? ==> |p| <= cHere.value) && (hit || cHere == Some(|p|)))
  }

  /** A turn appended to what the loop performed before it. */
  lemma ComposeTurn(all: seq<Effect>, crash: Option<nat>, before: seq<Effect>, here: seq<Effect>, after: seq<Effect>,
                    cHere: Option<nat>, cAfter: Option<nat>, p: seq<Effect>, stopped: bool, hit: bool)
    requires all == before + here && crash == Offset(cHere, |before|)
    requires Turn(here, after, cHere, cAfter, p, stopped, hit)
    ensures before + p <= all
    ensures !stopped ==> all == (before + p) + after && crash == Offset(cAfter, |before + p|)
    ensures stopped ==> (crash.Some? ==> |before + p| <= crash.value) && (hit || crash == Some(|before + p|))
  {
    PrefixCompose(before, p, here, []);
    assert here + [] == here;
  }

  /** A loop turn whose planned effects are `one`, followed by `later`,
      performed the prefix `p` of `one` after `before`. */
  lemma PartOfStep(s0: Store, account: string, before: seq<Effect>, p: seq<Effect>, one: seq<Effect>, later: seq<Effect>)
    requires p <= one
    ensures before + p <= before + (one + later)
    ensures Replay(s0, account, before + p) == Replay(Replay(s0, account, before), account, p)
    ensures p == one ==> (before + p) + later == before + (one + later)
  {
    ReplayConcat(s0, account, before, p);
    PrefixCompose(before, p, one, later);
  }

  class Scraper {
    var progress: map<string, AccountProgress>
    var completed: seq<string>
    var files: set<string>

    ghost function State(): Store
      reads this
    {
      Store(progress, completed, files)
    }

    /** A scraper over a base directory holding this progress map,
        completed list and files (both JSON files absent: empty). */
    constructor (progress0: map<string, AccountProgress>, completed0: seq<string>, files0: set<string>)
      ensures State() == Store(progress0, completed0, files0)
    {
      progress, completed, files := progress0, completed0, files0;
    }

    /** Lines 41-47. */
    method SaveCompletedAccount(account: string)
      modifies this
      ensures State() == Apply(old(State()), account, MarkCompleted)
    {
      if account !in completed {
        completed := completed + [account];
      }
    }

    /** Lines 442-462: each extracted message of folder `folder` is saved
        as an .eml file and, when it lists attachments, its attachments are
        downloaded. Performs a prefix of the messages' effects: all of them,
        or those before the effect numbered `interrupt` (counting from
        `done`); as written, they stop at the first message whose id contains
        '/', whose .eml file raises. */
    method SaveEmails(account: string, emails: seq<EmailRecord>, downloads: map<string, seq<bool>>,
                      interrupt: Option<nat>, done: nat)
      returns (done2: nat, stopped: bool, ghost performed: seq<Effect>, ghost at: nat)
      modifies this
      requires interrupt.Some? ==> done <= interrupt.value
      ensures performed <= EmailsEffects(account, emails, downloads, 0)
      ensures State() == Replay(old(State()), account, performed)
      ensures done2 == done + |performed| && (interrupt.Some? ==> done2 <= interrupt.value)
      ensures emails != [] && '/' in emails[0].id ==> stopped && performed == []
      ensures stopped ==> (interrupt.Some? && interrupt.value == done2) || (at < |emails| && '/' in emails[at].id)
      ensures !stopped ==> performed == EmailsEffects(account, emails, downloads, 0)
    {
      ghost var s0 := State();
      ghost var chunks := EmailChunks(account, emails, downloads);
      ghost var effs := Flatten(chunks, 0);
      performed, at := [], |emails|;
      done2, stopped := done, false;
      for j := 0 to |emails|
        invariant done2 == done + |performed| && (interrupt.Some? ==> done2 <= interrupt.value)
        invariant State() == Replay(s0, account, performed)
        invariant performed + Flatten(chunks, j) == effs
        invariant j > 0 ==> '/' !in emails[0].id
      {
        ghost var before := performed;
        var next, stop, p := SaveEmail(account, emails, downloads, j, interrupt, done2);
        PartOfStep(s0, account, before, p, chunks[j], Flatten(chunks, j + 1));
        performed, done2 := before + p, next;
        if stop {
          return done2, true, performed, j;
        }
      }
      assert performed + [] == performed;
    }

    /** Lines 444-462 for one message: its .eml file, then, when it lists
        attachments, the downloads. Performs a prefix of those effects. As
        written, opening the .eml file raises when its name contains '/',
        which happens exactly when the id does. */
    method SaveEmail(account: string, emails: seq<EmailRecord>, downloads: map<string, seq<bool>>, j: nat,
                     interrupt: Option<nat>, done: nat)
      returns (done2: nat, stopped: bool, ghost performed: seq<Effect>)
      modifies this
      requires j < |emails|
      requires interrupt.Some? ==> done <= interrupt.value
      ensures performed <= EmailChunks(account, emails, downloads)[j]
      ensures State() == Replay(old(State()), account, performed)
      ensures done2 == done + |performed| && (interrupt.Some? ==> done2 <= interrupt.value)
      ensures '/' in emails[j].id ==> stopped && performed == []
      ensures stopped ==> (interrupt.Some? && interrupt.value == done2) || '/' in emails[j].id
      ensures !stopped ==> performed == EmailChunks(account, emails, downloads)[j]
    {
      ghost var s0 := State();
      var rec := emails[j];
      var outcomes := OutcomesFor(downloads, rec.id);
      ghost var effs := EmailEffects(account, rec, outcomes);
      EmailChunkAt(account, emails, downloads, j);
      performed := [];
      done2, stopped := done, false;
      if interrupt.Some? && interrupt.value == done2 {
        return done2, true, performed;
      }
      AsWrittenNameHasSlash(rec.id, rec.subject);
      if '/' in EmlFileNameAsWritten(rec.id, rec.subject) {
        return done2, true, performed;
      }
      files := files + {EmlPath(account, rec)};
      ReplaySnoc(s0, account, performed, Write(EmlPath(account, rec)));
      performed, done2 := performed + [Write(EmlPath(account, rec))], done2 + 1;
      var downloaded := DownloadAttachments(account, rec, outcomes);
      assert downloaded[0..] == downloaded;
      for m := 0 to |downloaded|
        invariant done2 == done + |performed| && (interrupt.Some? ==> done2 <= interrupt.value)
        invariant State() == Replay(s0, account, performed)
        invariant performed + Writes(downloaded[m..]) == effs
      {
        if interrupt.Some? && interrupt.value == done2 {
          return done2, true, performed;
        }
        WritesFrom(downloaded, m);
        files := files + {downloaded[m]};
        ReplaySnoc(s0, account, performed, Write(downloaded[m]));
        assert performed + ([Write(downloaded[m])] + Writes(downloaded[m + 1..]))
            == (performed + [Write(downloaded[m])]) + Writes(downloaded[m + 1..]);
        performed, done2 := performed + [Write(downloaded[m])], done2 + 1;
      }
      assert downloaded[|downloaded|..] == [];
      assert performed + [] == performed;
    }

    /** Lines 436-462 for one folder that opened: extract its messages and
        save them. Performs a prefix of those effects; as written, none
        when the folder raises at its first .eml file. */
    method VisitFolder(account: string, folder: Folder, view: FolderView, cutoff: int, interrupt: Option<nat>, done: nat)
      returns (done2: nat, stopped: bool, ghost performed: seq<Effect>)
      modifies this
      requires view.Listed?
      requires interrupt.Some? ==> done <= interrupt.value
      ensures performed <= FolderEffects(account, folder, view, cutoff)
      ensures State() == Replay(old(State()), account, performed)
      ensures done2 == done + |performed| && (interrupt.Some? ==> done2 <= interrupt.value)
      ensures CrashesAt(folder, FolderEffects(account, folder, view, cutoff)) ==> stopped && performed == []
      ensures stopped ==> (interrupt.Some? && interrupt.value == done2) || CrashesAt(folder, FolderEffects(account, folder, view, cutoff))
      ensures !stopped ==> performed == FolderEffects(account, folder, view, cutoff)
    {
      var emails := ExtractEmails(folder.name, view.items, cutoff);
      EmailsEffectsEmpty(account, emails, view.downloads);
      ghost var at;
      done2, stopped, performed, at := SaveEmails(account, emails, view.downloads, interrupt, done);
      if emails != [] {
        ExtractIdCarriesFolderSlash(folder.name, view.items, cutoff, 0);
      }
      if at < |emails| {
        ExtractIdCarriesFolderSlash(folder.name, view.items, cutoff, at);
      }
      SavedMessagesCrash(folder, emails, FolderEffects(account, folder, view, cutoff), stopped, performed, at,
                         interrupt.Some? && interrupt.value == done2);
    }

    /** Lines 436-468 for one folder that opened: visit it, then record
        it as completed with entry `next` (lines 464-468) unless the run
        stopped. Performs a prefix of those effects. */
    method SaveFolder(account: string, folder: Folder, view: FolderView, cutoff: int, next: AccountProgress,
                      interrupt: Option<nat>, done: nat)
      returns (done2: nat, stopped: bool, ghost p: seq<Effect>)
      modifies this
      requires view.Listed?
      requires interrupt.Some? ==> done <= interrupt.value
      ensures p <= FolderEffects(account, folder, view, cutoff) + [Checkpoint(next)]
      ensures State() == Replay(old(State()), account, p)
      ensures done2 == done + |p| && (interrupt.Some? ==> done2 <= interrupt.value)
      ensures CrashesAt(folder, FolderEffects(account, folder, view, cutoff)) ==> stopped && p == []
      ensures stopped ==> (interrupt.Some? && interrupt.value == done2) || CrashesAt(folder, FolderEffects(account, folder, view, cutoff))
      ensures stopped ==> |p| <= |FolderEffects(account, folder, view, cutoff)|
      ensures !stopped ==> p == FolderEffects(account, folder, view, cutoff) + [Checkpoint(next)]
    {
      ghost var s0 := State();
      ghost var effs := FolderEffects(account, folder, view, cutoff);
      var stop;
      done2, stop, p := VisitFolder(account, folder, view, cutoff, interrupt, done);
      PrefixCompose([], p, effs, [Checkpoint(next)]);
      assert [] + p == p && [] + (effs + [Checkpoint(next)]) == effs + [Checkpoint(next)];
      if stop || (interrupt.Some? && interrupt.value == done2) {
        stopped := true;
      } else {
        progress := progress[account := next];
        ReplaySnoc(s0, account, p, Checkpoint(next));
        p, done2, stopped := p + [Checkpoint(next)], done2 + 1, false;
      }
    }

    /** Lines 424-468, one turn of the folder loop: a folder whose name is
        already completed, or that cannot be opened, is passed over; any
        other is visited and then recorded as completed in the progress
        map (lines 464-468). */
    method ScrapeFolder(account: string, folders: seq<Folder>, mailbox: Mailbox, cutoff: int, k: nat, entry: AccountProgress,
                        interrupt: Option<nat>, done: nat)
      returns (done2: nat, stopped: bool, next: AccountProgress, ghost p: seq<Effect>)
      modifies this
      requires k < |folders|
      requires interrupt.Some? ==> done <= interrupt.value
      ensures var saves := FolderSaves(account, folders, mailbox, cutoff);
        Turn(FolderSteps(folders, saves, k, entry), FolderSteps(folders, saves, k + 1, next),
             CrashFrom(folders, saves, k, entry), CrashFrom(folders, saves, k + 1, next),
             p, stopped, interrupt.Some? && interrupt.value == done2)
      ensures State() == Replay(old(State()), account, p)
      ensures done2 == done + |p| && (interrupt.Some? ==> done2 <= interrupt.value)
    {
      ghost var saves := FolderSaves(account, folders, mailbox, cutoff);
      var folder := folders[k];
      var view := ViewOf(mailbox, folder);
      if folder.name in entry.completedFolders || view.Unreachable? {
        assert saves[k].None? <==> view.Unreachable?;
        PassedOver(folders, saves, k, entry);
        assert Replay(State(), account, []) == State();
        return done, false, entry, [];
      }
      SavedFolderStep(account, folders, mailbox, cutoff, k, entry);
      SavedFolderCrash(account, folders, mailbox, cutoff, k, entry);
      ghost var effs := FolderEffects(account, folder, view, cutoff);
      next := AccountProgress(k + 1, entry.completedFolders + [folder.name]);
      done2, stopped, p := SaveFolder(account, folder, view, cutoff, next, interrupt, done);
      SavedTurn(FolderSteps(folders, saves, k, entry), FolderSteps(folders, saves, k + 1, next), effs, next,
                CrashFrom(folders, saves, k, entry), CrashFrom(folders, saves, k + 1, next), CrashesAt(folder, effs),
                p, stopped, interrupt.Some? && interrupt.value == done2);
    }

    /** Lines 423-470: the folder loop from the start, with progress entry
        `entry`. Performs a prefix of the loop's effects: all of them, or
        those before the effect numbered `interrupt` (counting from 0) or
        before the first folder that raises, whichever comes first. */
    method ScrapeFolders(account: string, folders: seq<Folder>, mailbox: Mailbox, cutoff: int, entry0: AccountProgress, interrupt: Option<nat>)
      returns (done: nat, stopped: bool, ghost performed: seq<Effect>)
      modifies this
      ensures performed <= FolderSteps(folders, FolderSaves(account, folders, mailbox, cutoff), 0, entry0)
      ensures State() == Replay(old(State()), account, performed)
      ensures done == |performed| && (interrupt.Some? ==> done <= interrupt.value)
      ensures var crash := CrashFrom(folders, FolderSaves(account, folders, mailbox, cutoff), 0, entry0);
        && (crash.Some? ==> done <= crash.value)
        && (stopped ==> (interrupt.Some? && interrupt.value == done) || crash == Some(done))
        && (!stopped ==> crash.None?)
      ensures !stopped ==> performed == FolderSteps(folders, FolderSaves(account, folders, mailbox, cutoff), 0, entry0)
    {
      ghost var s0 := State();
      ghost var saves := FolderSaves(account, folders, mailbox, cutoff);
      ghost var all := FolderSteps(folders, saves, 0, entry0);
      ghost var crash := CrashFrom(folders, saves, 0, entry0);
      var entry := entry0;
      done, stopped, performed := 0, false, [];
      for k := 0 to |folders|
        invariant done == |performed| && (interrupt.Some? ==> done <= interrupt.value)
        invariant State() == Replay(s0, account, performed)
        invariant all == performed + FolderSteps(folders, saves, k, entry)
        invariant crash == Offset(CrashFrom(folders, saves, k, entry), |performed|)
      {
        ghost var before := performed;
        ghost var here, cHere := FolderSteps(folders, saves, k, entry), CrashFrom(folders, saves, k, entry);
        var done2, stop, next, p := ScrapeFolder(account, folders, mailbox, cutoff, k, entry, interrupt, done);
        ComposeTurn(all, crash, before, here, FolderSteps(folders, saves, k + 1, next), cHere, CrashFrom(folders, saves, k + 1, next),
                    p, stop, interrupt.Some? && interrupt.value == done2);
        ReplayConcat(s0, account, before, p);
        performed, done, entry := before + p, done2, next;
        if stop {
          return done, true, performed;
        }
      }
      assert performed + [] == performed;
    }

    /** Lines 386-490, as written. `loginOk` is the outcome of `login`;
        `interrupt` is the number of persistent effects after which an
        exception or a kill ends the run, if one does. A missing Inbox link
        (line 95) and the first .eml file of a folder whose name contains
        '/' (line 329) raise as well. */
    method ScrapeAccount(account: string, loginOk: bool, mailbox: Mailbox, cutoff: int, interrupt: Option<nat>)
      modifies this
      ensures State() == Replay(old(State()), account, Truncate(AccountTraceAsWritten(old(State()), account, loginOk, mailbox, cutoff), interrupt))
    {
      ghost var s0 := State();
      ghost var trace := AccountTraceAsWritten(s0, account, loginOk, mailbox, cutoff);
      if account in completed {
        assert trace == [];
        return;
      }
      var entry := if account in progress then progress[account] else AccountProgress(0, []);
      if !loginOk {
        assert trace == [];
        return;
      }
      var found := GetFolders(mailbox.selectors, mailbox.labelLinks);
      if found.None? {
        assert trace == [];
        return;
      }
      var folders := found.value;
      ghost var saves := FolderSaves(account, folders, mailbox, cutoff);
      ghost var steps := FolderSteps(folders, saves, 0, entry);
      ghost var crash := CrashFrom(folders, saves, 0, entry);
      CrashWithinSteps(folders, saves, 0, entry);
      assert trace == if crash.Some? then steps[..crash.value] else steps + [MarkCompleted, DropEntry];
      var done, stopped, performed := ScrapeFolders(account, folders, mailbox, cutoff, entry, interrupt);
      if stopped {
        StoppedRun(steps, performed, interrupt, crash);
        return;
      }
      ghost var full := steps + [MarkCompleted, DropEntry];
      PrefixCompose([], performed, steps, [MarkCompleted, DropEntry]);
      assert [] + performed == performed && [] + full == full;
      FinishAccount(account, interrupt, done);
      ReplayConcat(s0, account, performed, Truncate([MarkCompleted, DropEntry], if interrupt.Some? then Some(interrupt.value - done) else None));
      TruncateAfter(performed, [MarkCompleted, DropEntry], interrupt);
    }

    /** Lines 472-478: mark the account completed, then drop its progress
        entry; `done` effects have been performed before. */
    method FinishAccount(account: string, interrupt: Option<nat>, done: nat)
      modifies this
      requires interrupt.Some? ==> done <= interrupt.value
      ensures State() == Replay(old(State()), account,
        Truncate([MarkCompleted, DropEntry], if interrupt.Some? then Some(interrupt.value - done) else None))
    {
      ghost var s0 := State();
      if interrupt.Some? && interrupt.value == done {
        return;
      }
      SaveCompletedAccount(account);
      assert State() == Replay(s0, account, [MarkCompleted]);
      if interrupt.Some? && interrupt.value == done + 1 {
        assert [MarkCompleted, DropEntry][..1] == [MarkCompleted];
        return;
      }
      if account in progress {
        progress := progress - {account};
      }
      assert [MarkCompleted, DropEntry][..1] == [MarkCompleted];
    }
  }
}
