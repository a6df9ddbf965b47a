# ProtonMail scraper: a verified model of its crawl and resume logic

This project models the core of `proton_scraping.py`. That script logs into
ProtonMail accounts through a browser and saves every recent message of every
folder as an `.eml` file, with its attachments. It keeps two files so that an
interrupted crawl can pick up where it stopped:

- `progress.json`, the folders already finished for each account;
- `completed_accounts.json`, the accounts already finished.

The browser is replaced by what it reports:

- the set of navigation selectors present on the page;
- the texts of the label links;
- per folder, one outcome per message item and one outcome per attachment
  download;
- for the scroll loop, which is modelled on its own, the successive lengths of
  the message list.

Within that, `Orchestrator.Scraper.ScrapeAccount` follows the code as written.
This includes two of the exceptions that end a run early:

- the wait for the Inbox link at line 95, when the link does not show;
- the `open` at line 329, for a folder whose name contains '/'.

Other exceptions, such as a file name too long for the file system, are
covered only by the interruption point described below.

The run with the '/' problem corrected, `Orchestrator.AccountTrace`, is kept
beside it. Most resumption properties are proved about that corrected run.
`AsWrittenRuns` proves that the as-written run is the corrected run cut short
where it raises. It carries the store invariants over to the as-written run.

Modules, one file each:

- `Strings` (`strings.dfy`) holds the Python string behaviour the scraper relies on:
  - `str.strip()` and `str(int)`;
  - single-character `str.replace`;
  - the "read each element's text, strip it, keep it if non-empty" loops that
    run inside one `try`.
- `Folders` (`folders.dfy`) holds `get_folders`:
  - the built-in folders whose link is present, in the fixed order Inbox to Trash;
  - then one `Label: <name>` entry per label link.
- `Extraction` (`extraction.dfy`) holds the two loops of `get_emails_in_folder`:
  - the scroll loop that waits for the list length to settle;
  - the item loop that opens each message and stops at the first one dated
    before the cutoff.
- `Storage` (`storage.dfy`) derives the file paths of `save_email_as_eml`
  and `download_attachments`, and models the download loop.
- `Orchestrator` (`orchestrator.dfy`) models `scrape_account`:
  - the class `Scraper` holds the progress map, the completed list and the
    files written;
  - its methods perform the run;
  - the run is specified as a sequence of persistent effects (`Effect`) applied
    to a `Store`.
- `Resumption` (`resumption.dfy`) proves properties of those runs:
  - what a run leaves untouched;
  - what a complete run leaves behind;
  - how checkpoints advance;
  - that a run cut after any number of effects, then run again, ends as one
    uninterrupted run ends.
- `AsWrittenRuns` (`aswritten.dfy`) relates the as-written run to the
  corrected one:
  - where the as-written run raises;
  - that once it raises, no later run against the same mailbox and cutoff
    completes the account.

An exception raised inside `scrape_account`'s `try` is caught at line 484, and
nothing persistent is written after it. Such an exception, or the process
being killed, is modelled by `interrupt`. It is the number of persistent effects
done before the run stops, and the resulting state is the replay of that
prefix of the run's effects.

Two checks in the code do less than they appear to. The model keeps both as
written:

- `max_scrolls = 50` (line 173) and the loop guard at line 175 suggest a cap of
  50 scroll attempts. The counter counts consecutive unchanged observations
  and is reset on every change (lines 180-185), so the guard never stops the
  loop. See Findings.
- The comment at line 201 calls the id a fallback, and line 204 skips an id
  already processed. The id is `<folder>_<index>`, and indices are distinct,
  so the check never skips an item. `Extraction.FreshId` proves this.
  `Extraction.ExtractEmails` keeps the check as written.

## Model

| member | source | states |
|---|---|---|
| Orchestrator.MarkCompletedFacts | proton_scraping.py:41-47 | The completed list keeps the old list as a prefix and gains exactly the account, at most once. It stays duplicate-free. An account already listed leaves it unchanged, so marking is idempotent. |
| Orchestrator.Scraper.SaveCompletedAccount | proton_scraping.py:41-47 | The new state is the old one with the completed list extended as `MarkCompletedList` says. Progress and files are unchanged. |
| Folders.GetFolders | proton_scraping.py:92-126 | Both directions: nothing is returned exactly when the Inbox link is absent, where the wait at line 95 raises. Otherwise the two loops return exactly `FolderList`, the present built-ins then the label entries, and the list starts with Inbox. |
| Folders.ListStartsWithInbox | proton_scraping.py:95-110 | When the Inbox link shows, the folder list is non-empty and its first entry is Inbox. |
| Folders.AppendLabelFolders | proton_scraping.py:113-123 | The labels loop appends one `Label: <t>` entry per stripped non-empty label text, in page order, up to the first read that raises. |
| Folders.FolderListShape | proton_scraping.py:98-123 | The present built-ins come first, each exactly when its selector is on the page, in Inbox..Trash order. A `Label: s` entry appears exactly when a label link read before any failure has stripped text `s`. No label entry shares a name with a built-in. |
| Folders.BuiltInsComeFirst | proton_scraping.py:98-110 | The first part of the list holds exactly the built-ins whose selector is present, once each, in the fixed order. |
| Folders.LabelEntriesAreLabels | proton_scraping.py:113-123 | Both directions: a label entry is listed if and only if its text comes from a label link read before the first failure. |
| Folders.LabelNamesAreNotBuiltIns | proton_scraping.py:98-123 | No built-in entry and label entry share a name. |
| Folders.FolderNamesDetermineFolders | proton_scraping.py:92-126 | Entries of the returned list with equal names are equal, selector included. |
| Strings.StripFacts | proton_scraping.py:116 | `strip()` is empty exactly when the text is all whitespace. Otherwise it starts and ends with a non-whitespace character. |
| Strings.CollectTextsMembers | proton_scraping.py:260-268 | A text is collected if and only if some element before the first failed read has it as its stripped non-empty text. |
| Strings.CollectedAreStripped | proton_scraping.py:260-268 | Every collected text is non-empty and left unchanged by `strip()`. |
| Strings.DecimalStringDistinct | proton_scraping.py:202 | Different indices print differently. |
| Extraction.StreakReachesThree | proton_scraping.py:180-185 | `scroll_attempts` reaches 3 exactly when the last three observations each equal the one before. |
| Extraction.ScrollUntilStable | proton_scraping.py:171-192 | The loop as written never ends by reaching `max_scrolls`. It settles at the first observation that completes three unchanged ones, returning that count, or it scrolls for as long as observations come without settling. |
| Extraction.GrowingListNeverSettles | proton_scraping.py:175-185 | A list that changes at every observation never settles, however long it is. |
| Extraction.ScrollWithCap | proton_scraping.py:171-192 | Corrected loop: it settles within at most 50 observations, at the first settling, or it stops with the cap reached after 50 observations that did not settle. |
| Extraction.EmailIdDistinct | proton_scraping.py:202 | Two positions in one folder never share an id. |
| Extraction.FreshId | proton_scraping.py:202-205 | The id at position `i` is never among those recorded for earlier positions, so the duplicate check never skips. |
| Extraction.ExtractEmails | proton_scraping.py:196-301 | The item loop, including its duplicate check and its `break`, returns exactly `Extract`. |
| Extraction.ExtractIsSuccessesBeforeStop | proton_scraping.py:199-299 | The loop-shaped definition equals the reference description: the records of the opened items before the first opened item dated before the cutoff. |
| Extraction.ExtractMembers | proton_scraping.py:199-283 | Both directions: a record is returned if and only if it is the record of an item that opened and lies before the stop index. |
| Extraction.ExtractRespectsCutoff | proton_scraping.py:243-246 | No returned record has a parsed date before the cutoff. |
| Extraction.CutoffSelectsRecentPrefix | proton_scraping.py:243-246 | With dated, newest-first items that all open, an item's record is returned exactly when its date is not before the cutoff. |
| Extraction.ExtractLength | proton_scraping.py:199-299 | The number of records equals the number of opened items before the stop. |
| Extraction.OneFailureCostsOneRecord | proton_scraping.py:282-299 | In a folder of n recent items where only item k fails to open, n - 1 records are returned. |
| Extraction.ExtractIdsDistinct | proton_scraping.py:202-205 | Returned records have pairwise distinct ids. |
| Storage.AccountDirNameFacts | proton_scraping.py:306 | The account directory name has no '@'. An address without '@' is kept as it is. |
| Storage.FolderDirNameFacts | proton_scraping.py:307 | The folder directory name has no '/'. A name without '/' is kept as it is. |
| Storage.SafeSubjectFacts | proton_scraping.py:311 | The safe subject is the first 100 characters with each of `<>:"/\|?*` replaced by '_' and every other character kept. It has no '/'. |
| Storage.AsWrittenNameEscapesFolderDir | proton_scraping.py:307-312 | As written, a folder name containing '/' puts '/' into every `.eml` file name of that folder. |
| Storage.SlashInEmailId | proton_scraping.py:202 | Both directions: an id contains '/' exactly when its folder name does. |
| Storage.AsWrittenNameHasSlash | proton_scraping.py:311-312 | Both directions: the `.eml` name built at line 312 contains '/' exactly when the id does, since the safe subject never does. |
| Storage.ExtractIdsCarryFolderSlash | proton_scraping.py:199-205 | Every record extracted from a folder has an id containing '/' exactly when the folder name does. |
| Storage.AsWrittenNamesAgree | proton_scraping.py:311-342 | For an id without '/', the corrected `.eml` name and attachments directory name are exactly those built at lines 312 and 342. |
| Storage.FileNamesFacts | proton_scraping.py:311-312 | Corrected names: the `.eml` name and the attachments directory name are single path segments, and the first ends in ".eml". |
| Storage.EmlFileNamesDistinct | proton_scraping.py:311-312 | Two messages of one folder never share an `.eml` name, whatever their subjects. |
| Storage.AttachmentsDirsDistinct | proton_scraping.py:342 | Two messages of one folder never share an attachments directory. |
| Storage.EmlIsNotAttachmentsDir | proton_scraping.py:312 | No `.eml` name coincides with an attachments directory name. |
| Storage.DownloadAttachments | proton_scraping.py:334-384 | The loop returns exactly `Downloaded`: the successful downloads, in element order, with failed ones skipped. |
| Storage.DownloadedFacts | proton_scraping.py:336-370 | No names means nothing is saved. Otherwise one path per successful download, each named by the extracted name at that position or `attachment_<idx>`. |
| Orchestrator.Scraper.SaveEmail | proton_scraping.py:439-462 | For one message, performs a prefix of its `.eml` write and its downloads, the whole of it unless it stops. When the id contains '/' it performs nothing, as the `open` at line 329 raises. It stops only for that or for the interruption. |
| Orchestrator.Scraper.SaveEmails | proton_scraping.py:439-462 | Performs a prefix of all messages' effects in order, the whole of it unless it stops. When the first id contains '/' it performs nothing. It stops only at the interruption or at a message whose id contains '/'. |
| Orchestrator.Scraper.VisitFolder | proton_scraping.py:436-462 | Extracts the folder's messages and performs a prefix of their effects, all of them unless it stops. A folder whose name contains '/' and that keeps a message performs nothing. It stops only for that or for the interruption. |
| Orchestrator.Scraper.SaveFolder | proton_scraping.py:436-468 | For a folder that opened, performs a prefix of its files followed by the checkpoint with the given entry, all of it unless it stops. A folder whose name contains '/' and that keeps a message performs nothing. It stops only for that or for the interruption, and then before the checkpoint. |
| Orchestrator.Scraper.ScrapeFolder | proton_scraping.py:424-468 | One turn of the folder loop performs a prefix of that folder's steps. A completed or unreachable folder performs nothing. A folder that finishes writes its files, then the checkpoint with `current_folder = idx + 1` and its name appended. The turn stops only at the interruption or where the loop raises. |
| Orchestrator.CrashWithinSteps | proton_scraping.py:424-468 | The point where the folder loop raises is one of its effects: the raising `.eml` write, never past the loop's end. |
| Orchestrator.Scraper.ScrapeFolders | proton_scraping.py:424-470 | Performs a prefix of `FolderSteps`, never past the first folder that raises. It stops only at the interruption or exactly where that folder raises. It performs all steps only when no folder raises. |
| Orchestrator.Scraper.FinishAccount | proton_scraping.py:472-478 | Marks the account completed, then drops its progress entry, each only if not interrupted before. |
| Orchestrator.Scraper.ScrapeAccount | proton_scraping.py:386-490 | The new state is the replay of the as-written run cut at the interruption. There are no effects for a completed account, a failed login or a missing Inbox link. Otherwise the run is the folder steps up to the first folder that raises; if none raises, it is all of them, then marking the account completed and dropping its entry. |
| Resumption.ReplayFacts | proton_scraping.py:399-478 | Files gain exactly the written paths. Other accounts' progress entries are untouched. The completed list only gains this account. |
| Resumption.RunLeavesOthersAlone | proton_scraping.py:386-490 | Interrupted anywhere or not, a run removes no file and changes no other account's entry. A completed account, a failed login or a missing Inbox link leaves the store unchanged. |
| Resumption.FolderFilesMembers | proton_scraping.py:436-462 | Saving a folder writes exactly the `.eml` files of the extracted records and their downloaded attachments. |
| Resumption.FullRunCompletesAccount | proton_scraping.py:421-478 | A complete run with the Inbox link missing changes nothing. Otherwise it appends the account to the completed list and removes its progress entry. The files gained are exactly those of the reachable folders not recorded as completed. |
| Resumption.FullRunFiles | proton_scraping.py:424-462 | Both directions: after a complete run, a file is present exactly when it was before, or when it is the `.eml` file or a downloaded attachment of a message kept from a folder that opened and was not recorded as completed. |
| Resumption.ReplayEntry | proton_scraping.py:464-468 | During the folder loop, the stored entry is the last checkpoint saved, so an exception leaves progress at the last completed folder. |
| Resumption.PrefixThenPending | proton_scraping.py:424-468 | At any cut of the folder loop, files written plus files still pending under the saved entry are the files pending at the start. |
| Resumption.ResumeAfterInterruption | proton_scraping.py:386-490 | A run cut after any number of effects, then an uninterrupted run, gives the same files, completed list and progress map as one uninterrupted run. The exception is a cut between marking complete and dropping the entry, which leaves that entry behind. |
| Resumption.CheckpointFacts | proton_scraping.py:464-468 | Each checkpoint records a reachable folder that was not yet completed, at `current_folder = idx + 1`, with its name appended to `completed_folders` without repetition. |
| Resumption.CheckpointAfterFiles | proton_scraping.py:439-468 | A folder's checkpoint is written only after all of that folder's files. |
| Resumption.CheckpointsAdvance | proton_scraping.py:464-468 | A later checkpoint has a strictly longer completed list extending the earlier one, and a strictly larger `current_folder`. |
| Resumption.CurrentFolderNeverRead | proton_scraping.py:424-427 | The loop depends on the entry only through `completed_folders`. |
| Resumption.CompletedFoldersNotOpened | proton_scraping.py:424-427 | Folders already recorded as completed are never opened: what they contain does not change the run. |
| Resumption.RunKeepsStoreValid | proton_scraping.py:44-45 | Any run, interrupted or not, keeps the completed list and every entry's `completed_folders` free of repetition. |
| AsWrittenRuns.CrashFromIff | proton_scraping.py:424-468 | Both directions: the folder loop raises because of '/' exactly when some folder not recorded as completed has '/' in its name, opens, and keeps a message. |
| AsWrittenRuns.CutBeforeCrash | proton_scraping.py:464-468 | Up to the point where the loop raises, no folder that raises has been recorded as completed. Only folders saved in full are checkpointed. |
| AsWrittenRuns.AsWrittenRunIsCutShort | proton_scraping.py:386-490 | The as-written run is the corrected run interrupted at the earlier of the interruption and the point where it raises. |
| AsWrittenRuns.AsWrittenAgreesIffNoCrash | proton_scraping.py:386-490 | Both directions: the as-written run equals the corrected run exactly when it does not raise. |
| AsWrittenRuns.NoSlashNoCrash | proton_scraping.py:307-329 | A mailbox with no folder name containing '/' gives a run that never raises because of '/'. |
| AsWrittenRuns.AsWrittenRunLeavesCrash | proton_scraping.py:464-484 | A run that raises, interrupted or not, leaves the account not completed. The next run from the resulting store raises again. |
| AsWrittenRuns.AsWrittenNeverCompletes | proton_scraping.py:386-490 | Once a run raises, no number of later runs against the same mailbox and the same cutoff, interrupted anywhere or not, marks the account completed. |
| AsWrittenRuns.AsWrittenKeepsStoreValid | proton_scraping.py:44-45 | The as-written run, interrupted or not, keeps the completed list and every entry's `completed_folders` free of repetition. |
| AsWrittenRuns.AsWrittenLeavesOthersAlone | proton_scraping.py:386-490 | The as-written run removes no file and changes no other account's entry. The completed list keeps its order and gains at most this account. |

## Left out

- Browser automation is not modelled: Playwright, browser launch, `login`,
  `navigate_to_folder`, clicks, `go_back`, sleeps and prints. Their outcomes
  are inputs instead: `loginOk`, a folder being `Unreachable`, an item being
  `OpenFailed`, and one boolean per attachment download.
- Locating the message again by subject before downloading its attachments
  (lines 446-456) is not modelled. The download outcomes per message id stand
  for whatever that search and the download dialogs produce.
- The scroll loop's outcome does not feed the item loop. The item list is a
  separate input, as the code re-reads the list after scrolling.
- `parse_date` and the cutoff date computation are left out. The parsed date
  (`None` when no format matched) and the cutoff are integers given as input.
- The `.eml` content is not modelled: the MIME message built at lines 316-330
  and the body extraction are reduced to which path gets written. Setting a
  header whose value has a line break inside it (lines 317-318; `strip` trims
  only the ends) is expected to raise under the email library's default
  policy. Like the '/' case, that would stop every run of the account at the
  same message. The model does not single this out: it writes the file, and
  such an exception is covered only as an arbitrary `interrupt`.
- JSON reading and writing and directory creation are not modelled. The files
  are the `Store`, and the base directory, a common prefix of every path, is
  omitted.
- `scrape_multiple_accounts` is not modelled. It only calls `scrape_account`
  per account and waits in between.
- Interruption is modelled only at the granularity of one persistent effect:
  an exception or kill happens between two file or JSON writes, never halfway
  through one.
- `Resumption.ResumeAfterInterruption` assumes the rerun sees the same mailbox
  and cutoff as the interrupted run.
- `Orchestrator.Scraper.ScrapeAccount` counts the completed account as
  finished even when some folders could not be opened, as the code does.
  Those folders are simply not in the files gained.
- `Resumption.ResumeAfterInterruption`, `Resumption.FullRunCompletesAccount`
  and the other `Resumption` lemmas are stated about the corrected run. The
  as-written run agrees with it, apart from `interrupt`, when no folder name
  contains '/' (`AsWrittenRuns.NoSlashNoCrash` and
  `AsWrittenRuns.AsWrittenAgreesIffNoCrash`). A folder name with '/' alone is
  not enough to raise because of '/'. The folder must also be
  not yet completed, open, and keep a message within the cutoff
  (`AsWrittenRuns.CrashFromIff`). When a run does raise,
  `AsWrittenRuns.AsWrittenNeverCompletes` shows that later runs against the
  same mailbox and cutoff never complete the account.
- `AsWrittenRuns.AsWrittenNeverCompletes` holds the mailbox and the cutoff
  fixed across runs. The code computes the cutoff from the current time when
  the scraper is created (line 17), so a later process has a later cutoff. Once
  the label's messages all fall before it, the folder keeps nothing, no longer
  raises, and the account can complete.
- `AsWrittenRuns.NoSlashNoCrash` and `Orchestrator.CrashesAt` single out only
  the raise caused by '/'. Line 311 cuts the subject to 100 characters, not
  bytes. A file name longer than the file system's limit (often 255 bytes)
  therefore also raises, at line 329 on every run: for example `Inbox_0_`,
  then 82 three-byte characters, then `.eml`. So does a long non-ASCII label
  name at line 308. Such an exception is caught at line 484 and recurs at the
  same message, so the account never completes. The model covers it only as an
  arbitrary `interrupt`.
- `Storage.DownloadAttachments` and `Storage.AttachmentPath` build the
  attachments directory from the corrected id segment, while line 342 uses the
  raw id. The two agree for every id that reaches the download, since the
  `.eml` write at line 329 raises first for an id with '/'
  (`Storage.AsWrittenNamesAgree`).
- `Storage.EmlFileName`: the corrected naming replaces '/' in the id by '_', as
  line 307 does for the folder directory. So, as with the directories, labels
  `a/b` and `a_b` can give one `.eml` path for two messages. The file set then
  holds that path once.
- Directories that exist before a run are not modelled. As written, a folder
  name with '/' raises because the directory for the file name's first part was
  never created.
- `DropEntry` is an effect even when the account has no entry. Removing an
  absent key changes nothing, as the `if email in progress` guard at line 476
  ensures.

## Findings

| source | as written | input that shows it | evidently intended | confidence | as-written member | corrected member |
|---|---|---|---|---|---|---|
| proton_scraping.py:307-312 | The folder directory replaces '/' in the folder name, but the `.eml` file name and the attachments directory embed the message id, and the id carries the raw folder name. | A label whose text is `a/b` with one recent message: the id `Label: a/b_0` puts '/' into the file name. The file is opened in a directory that was never created, `open` raises, and the exception is caught at line 484. That folder is never checkpointed, and no later run against the same mailbox and cutoff completes the account, while the label keeps a message within the cutoff. | Sanitise the id the same way as the folder directory, so both names are single path segments and every run can complete. | medium, not executed | AsWrittenRuns.AsWrittenNeverCompletes | Resumption.FullRunCompletesAccount |
| proton_scraping.py:171-185 | `scroll_attempts` counts consecutive unchanged observations and is reset to 0 on every change, so it never exceeds 3 and the `max_scrolls` guard of 50 never stops the loop. | A message list whose length grows at every observation: it is scrolled as long as it grows, past 50 observations. | Stop after at most 50 observations whether or not the length settles. | medium, not executed | Extraction.GrowingListNeverSettles | Extraction.ScrollWithCap |
