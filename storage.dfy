/** Where `save_email_as_eml` and `download_attachments` put their files.
    Paths are relative to the scraper's base directory, which prefixes every
    one of them alike. */
module Storage {
  import opened Strings
  import opened Extraction

  /** The subject is cut to this many characters before it is sanitised. */
  const MaxSubjectLength: nat := 100

  /** The characters `re.sub(r'[<>:"/\\|?*]', '_', ...)` replaces. */
  const Forbidden: string := "<>:\"/\\|?*"

  /** `account_email.replace('@', '_at_')`. */
  function AccountDirName(account: string): string {
    ReplaceChar(account, '@', "_at_")
  }

  /** The account directory name contains no '@', and an address without
      one is used as it is. */
  lemma AccountDirNameFacts(account: string)
    ensures '@' !in AccountDirName(account)
    ensures '@' !in account ==> AccountDirName(account) == account
  {
    ReplaceCharRemoves(account, '@', "_at_");
  }

  /** `email_data['folder'].replace('/', '_')`. */
  function FolderDirName(folder: string): string {
    ReplaceChar(folder, '/', "_")
  }

  /** The folder directory name is a single path segment, and a name
      without '/' is used as it is. */
  lemma FolderDirNameFacts(folder: string)
    ensures '/' !in FolderDirName(folder)
    ensures '/' !in folder ==> FolderDirName(folder) == folder
  {
    ReplaceCharRemoves(folder, '/', "_");
  }

  /** Each forbidden character becomes '_'; every other character stays. */
  function Sanitize(s: string): (r: string)
    ensures |r| == |s|
  {
    seq(|s|, i requires 0 <= i < |s| => if s[i] in Forbidden then '_' else s[i])
  }

  /** `re.sub(..., subject[:100])`. */
  function SafeSubject(subject: string): string {
    Sanitize(if |subject| < MaxSubjectLength then subject else subject[..MaxSubjectLength])
  }

  /** The safe subject has at most 100 characters, none of them forbidden
      (so no '/'), each equal to the subject's character at that position
      unless that one was forbidden. */
  lemma SafeSubjectFacts(subject: string)
    ensures var r := SafeSubject(subject);
      && |r| == (if |subject| < MaxSubjectLength then |subject| else MaxSubjectLength)
      && (forall i :: 0 <= i < |r| ==> r[i] !in Forbidden)
      && (forall i :: 0 <= i < |r| ==> r[i] == if subject[i] in Forbidden then '_' else subject[i])
      && '/' !in r
  {
    assert '/' in Forbidden;
  }

  /** The file name exactly as line 312 builds it: `<id>_<safe subject>.eml`,
      with the id, which carries the raw folder name, left unsanitised. */
  function EmlFileNameAsWritten(id: string, subject: string): string {
    id + "_" + SafeSubject(subject) + ".eml"
  }

  /** As written, a folder whose name contains '/' (the case line 307
      guards against for the directory) gives every one of its messages a
      file name containing '/', i.e. a path one level below the folder
      directory, in a directory nobody created. */
  lemma AsWrittenNameEscapesFolderDir(folder: string, idx: nat, subject: string)
    requires '/' in folder
    ensures '/' in EmlFileNameAsWritten(EmailId(folder, idx), subject)
  {
    var k :| 0 <= k < |folder| && folder[k] == '/';
    assert EmlFileNameAsWritten(EmailId(folder, idx), subject)[k] == '/';
  }

  /** An email id contains '/' exactly when its folder name does. */
  lemma SlashInEmailId(folder: string, idx: nat)
    ensures '/' in EmailId(folder, idx) <==> '/' in folder
  {
    DecimalStringDigits(idx);
    var id := EmailId(folder, idx);
    assert forall i :: |folder| <= i < |id| ==> id[i] != '/' by {
      forall i | |folder| < i < |id| ensures id[i] != '/' {
        assert id[i] == DecimalString(idx)[i - |folder| - 1];
      }
    }
    if '/' in folder {
      var k :| 0 <= k < |folder| && folder[k] == '/';
      assert id[k] == '/';
    }
    if '/' in id {
      var k :| 0 <= k < |id| && id[k] == '/';
      assert folder[k] == '/';
    }
  }

  /** The .eml name as written contains '/' exactly when the id does: the
      safe subject never does. */
  lemma AsWrittenNameHasSlash(id: string, subject: string)
    ensures '/' in EmlFileNameAsWritten(id, subject) <==> '/' in id
  {
    SafeSubjectFacts(subject);
    var name := EmlFileNameAsWritten(id, subject);
    assert forall i :: |id| <= i < |name| ==> name[i] != '/' by {
      forall i | |id| < i < |name| - 4 ensures name[i] != '/' {
        assert name[i] == SafeSubject(subject)[i - |id| - 1];
      }
    }
    if '/' in id {
      var k :| 0 <= k < |id| && id[k] == '/';
      assert name[k] == '/';
    }
    if '/' in name {
      var k :| 0 <= k < |name| && name[k] == '/';
      assert id[k] == '/';
    }
  }

  /** Every record `get_emails_in_folder` returns for a folder has an id
      containing '/' exactly when the folder name does. */
  lemma ExtractIdsCarryFolderSlash(folder: string, items: seq<Item>, cutoff: int)
    ensures forall k :: 0 <= k < |Extract(folder, items, cutoff)| ==>
      ('/' in Extract(folder, items, cutoff)[k].id <==> '/' in folder)
  {
    var recs := Extract(folder, items, cutoff);
    ExtractFromIdsAfter(folder, items, cutoff, 0);
    forall k | 0 <= k < |recs| ensures '/' in recs[k].id <==> '/' in folder {
      assert recs[k] in recs;
      var j :| 0 <= j < |items| && recs[k].id == EmailId(folder, j);
      SlashInEmailId(folder, j);
    }
  }

  lemma ExtractIdCarriesFolderSlash(folder: string, items: seq<Item>, cutoff: int, k: nat)
    requires k < |Extract(folder, items, cutoff)|
    ensures '/' in Extract(folder, items, cutoff)[k].id <==> '/' in folder
  {
    ExtractIdsCarryFolderSlash(folder, items, cutoff);
  }

  /** The id as a path segment: '/' replaced by '_', as for the folder
      directory. */
  function IdSegment(id: string): string {
    ReplaceChar(id, '/', "_")
  }

  /** `<id>_<safe subject>.eml`, with the id made a single path segment. */
  function EmlFileName(id: string, subject: string): string {
    IdSegment(id) + "_" + SafeSubject(subject) + ".eml"
  }

  /** `<id>_attachments`, with the id made a single path segment. */
  function AttachmentsDirName(id: string): string {
    IdSegment(id) + "_" + "attachments"
  }

  /** For an id without '/', the names used here are exactly those lines
      312 and 342 build. */
  lemma AsWrittenNamesAgree(id: string, subject: string)
    requires '/' !in id
    ensures EmlFileName(id, subject) == EmlFileNameAsWritten(id, subject)
    ensures AttachmentsDirName(id) == id + "_attachments"
  {
    ReplaceCharRemoves(id, '/', "_");
  }

  /** Both names are single path segments; the .eml name ends in ".eml"
      and the directory name in 's'. */
  lemma FileNamesFacts(id: string, subject: string)
    ensures '/' !in EmlFileName(id, subject) && '/' !in AttachmentsDirName(id)
    ensures var e := EmlFileName(id, subject); |e| >= 4 && e[|e| - 4..] == ".eml"
    ensures var d := AttachmentsDirName(id); d[|d| - 1] == 's'
  {
    ReplaceCharRemoves(id, '/', "_");
    SafeSubjectFacts(subject);
    var e := EmlFileName(id, subject);
    assert e[|e| - 4..] == ".eml";
  }

  /** `<account dir>/<folder dir>`. */
  function FolderPath(account: string, folder: string): string {
    AccountDirName(account) + "/" + FolderDirName(folder)
  }

  /** Where a record's .eml file goes. */
  function EmlPath(account: string, rec: EmailRecord): string {
    FolderPath(account, rec.folder) + "/" + EmlFileName(rec.id, rec.subject)
  }

  /** Line 359: the attachment's extracted name, or `attachment_<idx>` when
      the page shows more attachment elements than names were extracted. */
  function AttachmentName(names: seq<string>, idx: nat): string {
    if idx < |names| then names[idx] else "attachment_" + DecimalString(idx)
  }

  /** Where the `idx`-th attachment element's download is saved. */
  function AttachmentPath(account: string, rec: EmailRecord, idx: nat): string {
    FolderPath(account, rec.folder) + "/" + AttachmentsDirName(rec.id) + "/" + AttachmentName(rec.attachments, idx)
  }

  lemma IdSegmentOfEmailId(folder: string, idx: nat)
    ensures IdSegment(EmailId(folder, idx)) == FolderDirName(folder) + "_" + DecimalString(idx)
  {
    var tail := "_" + DecimalString(idx);
    assert EmailId(folder, idx) == folder + tail;
    ReplaceCharAppend(folder, tail, '/', "_");
    ReplaceCharRemoves(tail, '/', "_");
    assert '/' !in tail by {
      DecimalStringDigits(idx);
      forall i | 0 <= i < |tail| ensures tail[i] != '/' {
        if i > 0 {
          assert tail[i] == DecimalString(idx)[i - 1];
        }
      }
    }
  }

  /** Two strings that start with the decimal form of different numbers,
      each followed by '_', differ. */
  lemma DigitsThenUnderscoreDistinct(m: nat, n: nat, x: string, y: string)
    requires m != n
    ensures DecimalString(m) + "_" + x != DecimalString(n) + "_" + y
  {
    var a, b := DecimalString(m), DecimalString(n);
    var s, t := a + "_" + x, b + "_" + y;
    DecimalStringDigits(m);
    DecimalStringDigits(n);
    if |a| == |b| {
      DecimalStringDistinct(m, n);
      assert s[..|a|] == a && t[..|b|] == b;
    } else if |a| < |b| {
      assert s[|a|] == '_' && t[|a|] == b[|a|];
    } else {
      assert t[|b|] == '_' && s[|b|] == a[|b|];
    }
  }

  /** A common prefix can be dropped when comparing. */
  lemma PrefixCancels(p: string, x: string, y: string)
    requires x != y
    ensures p + x != p + y
  {
    assert (p + x)[|p|..] == x && (p + y)[|p|..] == y;
  }

  /** An id-based name splits into the folder part, the position and the rest. */
  lemma NameOfEmailId(folder: string, idx: nat, rest: string)
    ensures IdSegment(EmailId(folder, idx)) + "_" + rest
         == (FolderDirName(folder) + "_") + (DecimalString(idx) + "_" + rest)
  {
    IdSegmentOfEmailId(folder, idx);
  }

  /** Two messages of one folder never share an .eml file name, whatever
      their subjects. */
  lemma EmlFileNamesDistinct(folder: string, i: nat, j: nat, s1: string, s2: string)
    requires i != j
    ensures EmlFileName(EmailId(folder, i), s1) != EmlFileName(EmailId(folder, j), s2)
  {
    var x1, x2 := SafeSubject(s1) + ".eml", SafeSubject(s2) + ".eml";
    NameOfEmailId(folder, i, x1);
    NameOfEmailId(folder, j, x2);
    assert EmlFileName(EmailId(folder, i), s1) == IdSegment(EmailId(folder, i)) + "_" + x1;
    assert EmlFileName(EmailId(folder, j), s2) == IdSegment(EmailId(folder, j)) + "_" + x2;
    DigitsThenUnderscoreDistinct(i, j, x1, x2);
    PrefixCancels(FolderDirName(folder) + "_", DecimalString(i) + "_" + x1, DecimalString(j) + "_" + x2);
  }

  /** Two messages of one folder never share an attachments directory. */
  lemma AttachmentsDirsDistinct(folder: string, i: nat, j: nat)
    requires i != j
    ensures AttachmentsDirName(EmailId(folder, i)) != AttachmentsDirName(EmailId(folder, j))
  {
    NameOfEmailId(folder, i, "attachments");
    NameOfEmailId(folder, j, "attachments");
    DigitsThenUnderscoreDistinct(i, j, "attachments", "attachments");
    PrefixCancels(FolderDirName(folder) + "_", DecimalString(i) + "_" + "attachments", DecimalString(j) + "_" + "attachments");
  }

  /** No .eml file name is an attachments directory name. */
  lemma EmlIsNotAttachmentsDir(id: string, other: string, subject: string)
    ensures EmlFileName(id, subject) != AttachmentsDirName(other)
  {
    var e := EmlFileName(id, subject);
    FileNamesFacts(id, subject);
    FileNamesFacts(other, subject);
    assert e[|e| - 1] == e[|e| - 4..][3];
  }

  /** Paths of the attachments saved, in element order, from element `i` on:
      each element whose download succeeded. */
  function SavedFrom(account: string, rec: EmailRecord, outcomes: seq<bool>, i: nat): seq<string>
    requires i <= |outcomes|
    decreases |outcomes| - i
  {
    if i == |outcomes| then []
    else (if outcomes[i] then [AttachmentPath(account, rec, i)] else []) + SavedFrom(account, rec, outcomes, i + 1)
  }

  /** What `download_attachments` returns. */
  function Downloaded(account: string, rec: EmailRecord, outcomes: seq<bool>): seq<string> {
    if rec.attachments == [] then [] else SavedFrom(account, rec, outcomes, 0)
  }

  /** Successful downloads among elements `i` onwards. */
  function CountTrue(outcomes: seq<bool>, i: nat): nat
    requires i <= |outcomes|
    decreases |outcomes| - i
  {
    if i == |outcomes| then 0 else (if outcomes[i] then 1 else 0) + CountTrue(outcomes, i + 1)
  }

  /** Lines 334-384. `outcomes` holds one entry per attachment element found
      on the page: whether its download completed. A failed download is
      skipped and the loop goes on. */
  method DownloadAttachments(account: string, rec: EmailRecord, outcomes: seq<bool>) returns (downloaded: seq<string>)
    ensures downloaded == Downloaded(account, rec, outcomes)
  {
    if rec.attachments == [] {
      return [];
    }
    downloaded := [];
    for idx := 0 to |outcomes|
      invariant downloaded + SavedFrom(account, rec, outcomes, idx) == SavedFrom(account, rec, outcomes, 0)
    {
      SavedStep(downloaded, account, rec, outcomes, idx);
      if outcomes[idx] {
        var name := AttachmentName(rec.attachments, idx);
        var path := FolderPath(account, rec.folder) + "/" + AttachmentsDirName(rec.id) + "/" + name;
        assert path == AttachmentPath(account, rec, idx);
        downloaded := downloaded + [path];
      }
    }
    assert downloaded + [] == downloaded;
  }

  /** One turn of the download loop keeps what is saved so far plus what the
      rest of the loop saves unchanged. */
  lemma SavedStep(downloaded: seq<string>, account: string, rec: EmailRecord, outcomes: seq<bool>, idx: nat)
    requires idx < |outcomes|
    ensures (if outcomes[idx] then downloaded + [AttachmentPath(account, rec, idx)] else downloaded)
      + SavedFrom(account, rec, outcomes, idx + 1) == downloaded + SavedFrom(account, rec, outcomes, idx)
  {
    var rest := SavedFrom(account, rec, outcomes, idx + 1);
    if outcomes[idx] {
      assert downloaded + ([AttachmentPath(account, rec, idx)] + rest) == (downloaded + [AttachmentPath(account, rec, idx)]) + rest;
    } else {
      assert [] + rest == rest;
    }
  }

  lemma {:induction false} SavedFromFacts(account: string, rec: EmailRecord, outcomes: seq<bool>, i: nat, p: string)
    requires i <= |outcomes|
    ensures |SavedFrom(account, rec, outcomes, i)| == CountTrue(outcomes, i)
    ensures p in SavedFrom(account, rec, outcomes, i) <==>
      exists k :: i <= k < |outcomes| && outcomes[k] && p == AttachmentPath(account, rec, k)
    decreases |outcomes| - i
  {
    if i < |outcomes| {
      SavedFromFacts(account, rec, outcomes, i + 1, p);
    }
  }

  /** A message with attachment names gets one saved file per successful
      download, each in its own attachments directory and named after the
      extracted name at that position or the fallback; one with no names
      gets none. */
  lemma DownloadedFacts(account: string, rec: EmailRecord, outcomes: seq<bool>, p: string)
    ensures rec.attachments == [] ==> Downloaded(account, rec, outcomes) == []
    ensures rec.attachments != [] ==> |Downloaded(account, rec, outcomes)| == CountTrue(outcomes, 0)
    ensures p in Downloaded(account, rec, outcomes) <==>
      rec.attachments != [] && exists k :: 0 <= k < |outcomes| && outcomes[k] && p == AttachmentPath(account, rec, k)
  {
    SavedFromFacts(account, rec, outcomes, 0, p);
  }
}
