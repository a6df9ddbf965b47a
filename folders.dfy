/** `get_folders`: the built-in folders whose navigation link is on the page,
    in a fixed order, then one entry per custom label. The page is replaced by
    the set of selectors it matches and the texts of its label links. */
module Folders {
  import opened Strings

  /** A folder's display name and the selector that opens it. */
  datatype Folder = Folder(name: string, selector: string)

  /** `folder_selectors`, in the order the loop tries them. */
  const BuiltIns: seq<Folder> := [
    Folder("Inbox", "[data-testid=\"navigation-link:inbox\"]"),
    Folder("Sent", "[data-testid=\"navigation-link:sent\"]"),
    Folder("Drafts", "[data-testid=\"navigation-link:drafts\"]"),
    Folder("Starred", "[data-testid=\"navigation-link:starred\"]"),
    Folder("Archive", "[data-testid=\"navigation-link:archive\"]"),
    Folder("Spam", "[data-testid=\"navigation-link:spam\"]"),
    Folder("Trash", "[data-testid=\"navigation-link:trash\"]")
  ]

  /** Position of a built-in folder in `BuiltIns`; `|BuiltIns|` for any other. */
  function Rank(f: Folder): nat {
    if f == BuiltIns[0] then 0
    else if f == BuiltIns[1] then 1
    else if f == BuiltIns[2] then 2
    else if f == BuiltIns[3] then 3
    else if f == BuiltIns[4] then 4
    else if f == BuiltIns[5] then 5
    else if f == BuiltIns[6] then 6
    else 7
  }

  lemma RankOfBuiltIn(k: nat)
    requires k < |BuiltIns|
    ensures Rank(BuiltIns[k]) == k
    ensures BuiltIns[k].name[0] != 'L'
  {
  }

  /** The entry for a custom label whose stripped text is `labelText`. */
  function LabelFolder(labelText: string): Folder {
    Folder("Label: " + labelText, "text=\"" + labelText + "\"")
  }

  function LabelFolders(labels: seq<string>): seq<Folder> {
    if labels == [] then [] else [LabelFolder(labels[0])] + LabelFolders(labels[1..])
  }

  /** The built-ins among the first `n` whose selector is present. */
  function PresentBuiltIns(present: set<string>, n: nat): seq<Folder>
    requires n <= |BuiltIns|
  {
    if n == 0 then []
    else PresentBuiltIns(present, n - 1)
         + (if BuiltIns[n - 1].selector in present then [BuiltIns[n - 1]] else [])
  }

  /** What `get_folders` returns. */
  function FolderList(present: set<string>, labelLinks: seq<TextRead>): seq<Folder> {
    PresentBuiltIns(present, |BuiltIns|) + LabelFolders(CollectTexts(labelLinks))
  }

  /** Line 95 waits for the Inbox link outside any `try`: when it does not
      appear, `get_folders` raises instead of returning. */
  predicate InboxShown(present: set<string>) {
    BuiltIns[0].selector in present
  }

  /** Lines 92-126: the wait for the Inbox link, the built-ins loop, then
      the labels loop. `None` stands for the exception line 95 raises. */
  method GetFolders(present: set<string>, labelLinks: seq<TextRead>) returns (folders: Option<seq<Folder>>)
    ensures folders.None? <==> !InboxShown(present)
    ensures folders.Some? ==> folders.value == FolderList(present, labelLinks)
    ensures folders.Some? ==> folders.value != [] && folders.value[0] == BuiltIns[0]
  {
    if !InboxShown(present) {
      return None;
    }
    var list := [];
    for k := 0 to |BuiltIns|
      invariant list == PresentBuiltIns(present, k)
    {
      if BuiltIns[k].selector in present {
        list := list + [BuiltIns[k]];
      }
    }
    list := AppendLabelFolders(list, labelLinks);
    ListStartsWithInbox(present, labelLinks);
    return Some(list);
  }

  /** The built-ins among the first `n`, `n` at least 1, start with Inbox
      when its link is present. */
  lemma {:induction false} PresentBuiltInsStartWithInbox(present: set<string>, n: nat)
    requires 1 <= n <= |BuiltIns| && InboxShown(present)
    ensures PresentBuiltIns(present, n) != [] && PresentBuiltIns(present, n)[0] == BuiltIns[0]
  {
    if n > 1 {
      PresentBuiltInsStartWithInbox(present, n - 1);
    }
  }

  /** Every list `get_folders` returns starts with Inbox. */
  lemma ListStartsWithInbox(present: set<string>, labelLinks: seq<TextRead>)
    requires InboxShown(present)
    ensures FolderList(present, labelLinks) != [] && FolderList(present, labelLinks)[0] == BuiltIns[0]
  {
    PresentBuiltInsStartWithInbox(present, |BuiltIns|);
  }

  /** Lines 113-123: the labels loop, inside a `try` whose exception ends it
      and keeps what it appended. */
  method AppendLabelFolders(folders: seq<Folder>, labelLinks: seq<TextRead>) returns (result: seq<Folder>)
    ensures result == folders + LabelFolders(CollectTexts(labelLinks))
  {
    result := folders;
    var i := 0;
    while i < |labelLinks| && labelLinks[i].Text?
      invariant 0 <= i <= |labelLinks|
      invariant result + LabelFolders(CollectFrom(labelLinks, i)) == folders + LabelFolders(CollectTexts(labelLinks))
    {
      var labelText := Strip(labelLinks[i].text);
      LabelStep(result, labelLinks, i);
      if labelText != [] {
        result := result + [LabelFolder(labelText)];
      }
      i := i + 1;
    }
    assert result + [] == result;
  }

  /** One turn of the labels loop keeps what is appended so far plus what
      the rest of the loop appends unchanged. */
  lemma LabelStep(result: seq<Folder>, labelLinks: seq<TextRead>, i: nat)
    requires i < |labelLinks| && labelLinks[i].Text?
    ensures var t := Strip(labelLinks[i].text);
      (if t == [] then result else result + [LabelFolder(t)]) + LabelFolders(CollectFrom(labelLinks, i + 1))
        == result + LabelFolders(CollectFrom(labelLinks, i))
  {
    var t, rest := Strip(labelLinks[i].text), CollectFrom(labelLinks, i + 1);
    if t != [] {
      LabelFoldersCons(t, rest);
      assert result + ([LabelFolder(t)] + LabelFolders(rest)) == (result + [LabelFolder(t)]) + LabelFolders(rest);
    } else {
      assert [] + rest == rest;
    }
  }

  lemma LabelFoldersCons(x: string, ys: seq<string>)
    ensures LabelFolders([x] + ys) == [LabelFolder(x)] + LabelFolders(ys)
  {
    assert ([x] + ys)[1..] == ys;
  }

  lemma {:induction false} PresentBuiltInsOrdered(present: set<string>, n: nat)
    requires n <= |BuiltIns|
    ensures forall f :: f in PresentBuiltIns(present, n) <==>
      exists k :: 0 <= k < n && f == BuiltIns[k] && f.selector in present
    ensures forall i :: 0 <= i < |PresentBuiltIns(present, n)| ==> Rank(PresentBuiltIns(present, n)[i]) < n
    ensures forall i, j :: 0 <= i < j < |PresentBuiltIns(present, n)| ==>
      Rank(PresentBuiltIns(present, n)[i]) < Rank(PresentBuiltIns(present, n)[j])
  {
    if n > 0 {
      PresentBuiltInsOrdered(present, n - 1);
      RankOfBuiltIn(n - 1);
      forall k | 0 <= k < n - 1 ensures Rank(BuiltIns[k]) < n - 1 {
        RankOfBuiltIn(k);
      }
    }
  }

  lemma {:induction false} LabelFoldersMembers(labels: seq<string>, s: string)
    ensures LabelFolder(s) in LabelFolders(labels) <==> s in labels
    ensures forall f :: f in LabelFolders(labels) ==> f.name != [] && f.name[0] == 'L'
  {
    if labels != [] {
      LabelFoldersMembers(labels[1..], s);
      if LabelFolder(s) == LabelFolder(labels[0]) {
        assert s == LabelFolder(s).name[7..];
      }
    }
  }

  /** The present built-ins come first, each once, in the fixed order. */
  lemma BuiltInsComeFirst(present: set<string>, labelLinks: seq<TextRead>)
    ensures var folders, b := FolderList(present, labelLinks), |PresentBuiltIns(present, |BuiltIns|)|;
      && (forall k :: 0 <= k < |BuiltIns| ==> (BuiltIns[k] in folders[..b] <==> BuiltIns[k].selector in present))
      && (forall i :: 0 <= i < b ==> folders[i] in BuiltIns)
      && (forall i, j :: 0 <= i < j < b ==> Rank(folders[i]) < Rank(folders[j]))
  {
    var folders, b := FolderList(present, labelLinks), |PresentBuiltIns(present, |BuiltIns|)|;
    var builtins := PresentBuiltIns(present, |BuiltIns|);
    PresentBuiltInsOrdered(present, |BuiltIns|);
    assert folders[..b] == builtins;
    forall k | 0 <= k < |BuiltIns| ensures BuiltIns[k] in builtins <==> BuiltIns[k].selector in present {
      if BuiltIns[k] in builtins {
        var k' :| 0 <= k' < |BuiltIns| && BuiltIns[k] == BuiltIns[k'] && BuiltIns[k].selector in present;
      }
    }
    forall i | 0 <= i < b ensures folders[i] in BuiltIns {
      assert folders[i] == builtins[i];
      var k :| 0 <= k < |BuiltIns| && builtins[i] == BuiltIns[k] && builtins[i].selector in present;
    }
  }

  /** A `Label: <s>` entry is present exactly when some label link read
      before a failed read has `s` as its stripped, non-empty text. */
  lemma LabelEntriesAreLabels(present: set<string>, labelLinks: seq<TextRead>, s: string)
    ensures LabelFolder(s) in FolderList(present, labelLinks) <==>
      exists i :: 0 <= i < FirstFailure(labelLinks) && Yields(labelLinks[i], s)
  {
    var builtins, labels := PresentBuiltIns(present, |BuiltIns|), CollectTexts(labelLinks);
    PresentBuiltInsOrdered(present, |BuiltIns|);
    LabelFoldersMembers(labels, s);
    CollectTextsMembers(labelLinks, s);
    if LabelFolder(s) in builtins {
      var k :| 0 <= k < |BuiltIns| && LabelFolder(s) == BuiltIns[k] && LabelFolder(s).selector in present;
      RankOfBuiltIn(k);
    }
  }

  /** No label entry shares its name with a built-in entry. */
  lemma LabelNamesAreNotBuiltIns(present: set<string>, labelLinks: seq<TextRead>)
    ensures var folders, b := FolderList(present, labelLinks), |PresentBuiltIns(present, |BuiltIns|)|;
      forall i, j :: 0 <= i < b <= j < |folders| ==> folders[i].name != folders[j].name
  {
    var folders, b := FolderList(present, labelLinks), |PresentBuiltIns(present, |BuiltIns|)|;
    var builtins, labels := PresentBuiltIns(present, |BuiltIns|), CollectTexts(labelLinks);
    PresentBuiltInsOrdered(present, |BuiltIns|);
    LabelFoldersMembers(labels, []);
    forall i, j | 0 <= i < b <= j < |folders| ensures folders[i].name != folders[j].name {
      assert folders[i] in builtins;
      var k :| 0 <= k < |BuiltIns| && folders[i] == BuiltIns[k] && folders[i].selector in present;
      RankOfBuiltIn(k);
      assert folders[j] in LabelFolders(labels);
    }
  }

  /** The order and content of `get_folders`' answer: first the present
      built-ins, each once and in the fixed Inbox..Trash order; then exactly
      one `Label: <name>` entry per label link read before a failed read whose
      stripped text is non-empty; no label entry shares its name with a
      built-in. */
  lemma FolderListShape(present: set<string>, labelLinks: seq<TextRead>)
    ensures var folders, b := FolderList(present, labelLinks), |PresentBuiltIns(present, |BuiltIns|)|;
      && (forall k :: 0 <= k < |BuiltIns| ==> (BuiltIns[k] in folders[..b] <==> BuiltIns[k].selector in present))
      && (forall i :: 0 <= i < b ==> folders[i] in BuiltIns)
      && (forall i, j :: 0 <= i < j < b ==> Rank(folders[i]) < Rank(folders[j]))
      && (forall s :: LabelFolder(s) in folders <==>
            exists i :: 0 <= i < FirstFailure(labelLinks) && Yields(labelLinks[i], s))
      && (forall i, j :: 0 <= i < b <= j < |folders| ==> folders[i].name != folders[j].name)
  {
    BuiltInsComeFirst(present, labelLinks);
    forall s ensures LabelFolder(s) in FolderList(present, labelLinks) <==>
      exists i :: 0 <= i < FirstFailure(labelLinks) && Yields(labelLinks[i], s)
    {
      LabelEntriesAreLabels(present, labelLinks, s);
    }
    LabelNamesAreNotBuiltIns(present, labelLinks);
  }

  lemma {:induction false} LabelFoldersAreLabels(labels: seq<string>, i: nat)
    requires i < |LabelFolders(labels)|
    ensures |LabelFolders(labels)| == |labels| && LabelFolders(labels)[i] == LabelFolder(labels[i])
  {
    if i > 0 {
      LabelFoldersAreLabels(labels[1..], i - 1);
    } else if labels[1..] != [] {
      LabelFoldersAreLabels(labels[1..], 0);
    }
  }

  lemma BuiltInNamesDistinct(k: nat, k': nat)
    requires k < |BuiltIns| && k' < |BuiltIns| && BuiltIns[k].name == BuiltIns[k'].name
    ensures k == k'
  {
  }

  lemma SameNameSameFolder(present: set<string>, labelLinks: seq<TextRead>, i: nat, j: nat)
    requires i < |FolderList(present, labelLinks)| && j < |FolderList(present, labelLinks)|
    requires FolderList(present, labelLinks)[i].name == FolderList(present, labelLinks)[j].name
    ensures FolderList(present, labelLinks)[i] == FolderList(present, labelLinks)[j]
  {
    var builtins, labels := PresentBuiltIns(present, |BuiltIns|), CollectTexts(labelLinks);
    var folders, b := builtins + LabelFolders(labels), |builtins|;
    PresentBuiltInsOrdered(present, |BuiltIns|);
    LabelFoldersMembers(labels, []);
    if i < b {
      assert folders[i] in builtins;
      var k :| 0 <= k < |BuiltIns| && folders[i] == BuiltIns[k] && folders[i].selector in present;
      RankOfBuiltIn(k);
      if j < b {
        assert folders[j] in builtins;
        var k' :| 0 <= k' < |BuiltIns| && folders[j] == BuiltIns[k'] && folders[j].selector in present;
        BuiltInNamesDistinct(k, k');
      } else {
        assert false;
      }
    } else {
      assert folders[i] in LabelFolders(labels);
      LabelFoldersAreLabels(labels, i - b);
      if j < b {
        assert folders[j] in builtins;
        var k' :| 0 <= k' < |BuiltIns| && folders[j] == BuiltIns[k'] && folders[j].selector in present;
        RankOfBuiltIn(k');
      } else {
        LabelFoldersAreLabels(labels, j - b);
        assert labels[i - b] == folders[i].name[7..];
        assert labels[j - b] == folders[j].name[7..];
      }
    }
  }

  /** Within `get_folders`' answer a name picks out one folder: entries with
      equal names are equal, selector included. */
  lemma FolderNamesDetermineFolders(present: set<string>, labelLinks: seq<TextRead>)
    ensures var folders := FolderList(present, labelLinks);
      forall i, j :: 0 <= i < |folders| && 0 <= j < |folders| && folders[i].name == folders[j].name ==> folders[i] == folders[j]
  {
    var folders := FolderList(present, labelLinks);
    forall i, j | 0 <= i < |folders| && 0 <= j < |folders| && folders[i].name == folders[j].name
      ensures folders[i] == folders[j]
    {
      SameNameSameFolder(present, labelLinks, i, j);
    }
  }
}
