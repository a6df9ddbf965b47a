/** The two loops of `get_emails_in_folder`: scrolling the message list until
    its length stops changing, then opening each item in turn and keeping the
    records that are recent enough. The page is replaced by what it reports:
    a sequence of observed list lengths, and one outcome per list item. */
module Extraction {
  import opened Strings

  /** The loop gives up after this many consecutive unchanged observations. */
  const StableRounds: nat := 3
  /** The loop's `max_scrolls` guard. */
  const MaxScrolls: nat := 50

  /** How the scroll loop ended. `Exhausted` means the finite sequence of
      observations given to the model ran out first. */
  datatype ScrollOutcome =
    | Settled(observations: nat, count: nat)
    | CapReached
    | Exhausted

  /** The count the loop compares observation `j` with (`last_count` starts at 0). */
  function Previous(counts: seq<nat>, j: nat): nat
    requires j <= |counts|
  {
    if j == 0 then 0 else counts[j - 1]
  }

  /** Observation `j` equals the one before it. */
  predicate Unchanged(counts: seq<nat>, j: nat)
    requires j < |counts|
  {
    counts[j] == Previous(counts, j)
  }

  /** `scroll_attempts` after `n` observations: the length of the run of
      unchanged observations that ends with the `n`-th. */
  function Streak(counts: seq<nat>, n: nat): nat
    requires n <= |counts|
  {
    if n == 0 then 0
    else if Unchanged(counts, n - 1) then Streak(counts, n - 1) + 1
    else 0
  }

  /** The last three of the first `n` observations each equal the one before. */
  predicate SettledAfter(counts: seq<nat>, n: nat)
    requires n <= |counts|
  {
    n >= StableRounds && Unchanged(counts, n - 1) && Unchanged(counts, n - 2) && Unchanged(counts, n - 3)
  }

  /** The counter reaches 3 exactly when the last three observations repeated. */
  lemma StreakReachesThree(counts: seq<nat>, n: nat)
    requires n <= |counts|
    ensures Streak(counts, n) >= StableRounds <==> SettledAfter(counts, n)
  {
    if n >= 1 && Unchanged(counts, n - 1) {
      assert Streak(counts, n) == Streak(counts, n - 1) + 1;
      if n >= 2 && Unchanged(counts, n - 2) {
        assert Streak(counts, n - 1) == Streak(counts, n - 2) + 1;
        if n >= 3 && Unchanged(counts, n - 3) {
          assert Streak(counts, n - 2) == Streak(counts, n - 3) + 1;
        } else {
          assert Streak(counts, n - 2) == 0;
        }
      } else {
        assert Streak(counts, n - 1) == 0;
      }
    }
  }

  /** Lines 171-192: observe the list length, count consecutive unchanged
      observations, reset on any change, stop at three. The loop ends only
      by settling: the counter never exceeds 3, so `max_scrolls` never fires. */
  method ScrollUntilStable(counts: seq<nat>) returns (r: ScrollOutcome)
    ensures !r.CapReached?
    ensures r.Settled? ==>
      && 1 <= r.observations <= |counts|
      && SettledAfter(counts, r.observations)
      && (forall n :: 0 <= n < r.observations ==> !SettledAfter(counts, n))
      && r.count == counts[r.observations - 1]
    ensures r.Exhausted? ==> forall n :: 0 <= n <= |counts| ==> !SettledAfter(counts, n)
  {
    var last: nat := 0;
    var attempts: nat := 0;
    var i := 0;
    while attempts < MaxScrolls
      invariant 0 <= i <= |counts|
      invariant last == Previous(counts, i)
      invariant attempts == Streak(counts, i) && attempts < StableRounds
      invariant forall n :: 0 <= n <= i ==> !SettledAfter(counts, n)
      decreases |counts| - i
    {
      if i == |counts| {
        return Exhausted;
      }
      var current := counts[i];
      i := i + 1;
      if current == last {
        attempts := attempts + 1;
        if attempts >= StableRounds {
          StreakReachesThree(counts, i);
          return Settled(i, current);
        }
      } else {
        attempts := 0;
      }
      StreakReachesThree(counts, i);
      last := current;
    }
    r := if attempts >= MaxScrolls then CapReached else Exhausted;
  }

  /** A list that grows at every observation never settles, at any length:
      as written, the loop above then keeps scrolling for as long as the list
      keeps growing, past the 50 observations `max_scrolls` was meant to
      allow. */
  lemma GrowingListNeverSettles(counts: seq<nat>)
    requires forall j :: 0 <= j < |counts| ==> counts[j] != Previous(counts, j)
    ensures forall n :: 0 <= n <= |counts| ==> !SettledAfter(counts, n)
  {
  }

  /** The scroll loop with `max_scrolls` bounding the number of
      observations, which is what the name `max_scrolls = 50` (line 173)
      and the guard of line 175 say it does: it stops at the first settling
      within 50 observations, and otherwise after the 50th. */
  method ScrollWithCap(counts: seq<nat>) returns (r: ScrollOutcome)
    ensures r.Settled? ==>
      && 1 <= r.observations <= MaxScrolls && r.observations <= |counts|
      && SettledAfter(counts, r.observations)
      && (forall n :: 0 <= n < r.observations ==> !SettledAfter(counts, n))
      && r.count == counts[r.observations - 1]
    ensures r.CapReached? ==> MaxScrolls <= |counts| && forall n :: 0 <= n <= MaxScrolls ==> !SettledAfter(counts, n)
    ensures r.Exhausted? ==> |counts| < MaxScrolls && forall n :: 0 <= n <= |counts| ==> !SettledAfter(counts, n)
  {
    var last: nat := 0;
    var streak: nat := 0;
    var i := 0;
    while i < MaxScrolls
      invariant 0 <= i <= MaxScrolls && i <= |counts|
      invariant last == Previous(counts, i)
      invariant streak == Streak(counts, i) && streak < StableRounds
      invariant forall n :: 0 <= n <= i ==> !SettledAfter(counts, n)
    {
      if i == |counts| {
        return Exhausted;
      }
      var current := counts[i];
      i := i + 1;
      if current == last {
        streak := streak + 1;
        if streak >= StableRounds {
          StreakReachesThree(counts, i);
          return Settled(i, current);
        }
      } else {
        streak := 0;
      }
      StreakReachesThree(counts, i);
      last := current;
    }
    return CapReached;
  }

  /** What the header reads as the message's date, and what `parse_date`
      made of it (`None` when no format matched). */
  datatype DateField = DateField(text: string, parsed: Option<int>)

  /** Lines 251-257 read the body's HTML, then its text, inside one `try`:
      no element or a failure on the first read keeps neither, a failure on
      the second keeps the HTML only. */
  datatype BodyRead = NoBody | HtmlOnly(html: string) | Body(html: string, text: string)

  /** One list item as the page presents it when opened: `OpenFailed` when
      clicking it or waiting for its content raised; otherwise each header
      field (`None` when its element is missing or reading it raised) and the
      attachment elements' texts. */
  datatype Item =
    | OpenFailed
    | Opened(subject: Option<string>, sender: Option<string>, date: Option<DateField>,
             body: BodyRead, attachments: seq<TextRead>)

  /** The `email_data` dictionary. */
  datatype EmailRecord = EmailRecord(
    id: string, subject: string, sender: string, date: string, dateParsed: Option<int>,
    bodyHtml: string, bodyText: string, attachments: seq<string>, folder: string)

  /** `f"{folder['name']}_{idx}"`. */
  function EmailId(folder: string, idx: nat): string {
    folder + "_" + DecimalString(idx)
  }

  /** Two positions of one folder never share an id. */
  lemma EmailIdDistinct(folder: string, i: nat, j: nat)
    requires i != j
    ensures EmailId(folder, i) != EmailId(folder, j)
  {
    DecimalStringDistinct(i, j);
    var p := folder + "_";
    assert EmailId(folder, i)[|p|..] == DecimalString(i);
    assert EmailId(folder, j)[|p|..] == DecimalString(j);
  }

  /** The record the loop builds for an opened item, with the defaults
      "No Subject", "Unknown" and "" for missing fields. */
  function RecordOf(folder: string, idx: nat, item: Item): EmailRecord
    requires item.Opened?
  {
    EmailRecord(
      EmailId(folder, idx),
      if item.subject.Some? then Strip(item.subject.value) else "No Subject",
      if item.sender.Some? then Strip(item.sender.value) else "Unknown",
      if item.date.Some? then Strip(item.date.value.text) else "",
      if item.date.Some? then item.date.value.parsed else None,
      if item.body.NoBody? then "" else item.body.html,
      if item.body.Body? then item.body.text else "",
      CollectTexts(item.attachments),
      folder)
  }

  /** The item was opened and its parsed date is strictly before the cutoff. */
  predicate TooOld(item: Item, cutoff: int) {
    item.Opened? && item.date.Some? && item.date.value.parsed.Some? && item.date.value.parsed.value < cutoff
  }

  /** What the item loop emits from position `i` on. */
  function ExtractFrom(folder: string, items: seq<Item>, cutoff: int, i: nat): seq<EmailRecord>
    requires i <= |items|
    decreases |items| - i
  {
    if i == |items| then []
    else if items[i].OpenFailed? then ExtractFrom(folder, items, cutoff, i + 1)
    else if TooOld(items[i], cutoff) then []
    else [RecordOf(folder, i, items[i])] + ExtractFrom(folder, items, cutoff, i + 1)
  }

  /** The records `get_emails_in_folder` returns. */
  function Extract(folder: string, items: seq<Item>, cutoff: int): seq<EmailRecord> {
    ExtractFrom(folder, items, cutoff, 0)
  }

  /** The ids `processed_ids` can hold before position `i`. */
  lemma FreshId(folder: string, i: nat, processed: set<string>)
    requires forall x :: x in processed ==> exists j :: 0 <= j < i && x == EmailId(folder, j)
    ensures EmailId(folder, i) !in processed
  {
    forall j | 0 <= j < i ensures EmailId(folder, j) != EmailId(folder, i) {
      EmailIdDistinct(folder, j, i);
    }
  }

  /** Lines 196-301: open each item in turn; an item whose opening raises is
      dropped and the loop goes on; the first opened item dated before the
      cutoff ends the loop. The duplicate-id check is kept as written and is
      proved never to skip an item. */
  method ExtractEmails(folder: string, items: seq<Item>, cutoff: int) returns (emails: seq<EmailRecord>)
    ensures emails == Extract(folder, items, cutoff)
  {
    emails := [];
    var processed: set<string> := {};
    var idx := 0;
    while idx < |items|
      invariant 0 <= idx <= |items|
      invariant emails + ExtractFrom(folder, items, cutoff, idx) == Extract(folder, items, cutoff)
      invariant forall x :: x in processed ==> exists j :: 0 <= j < idx && x == EmailId(folder, j)
    {
      var id := EmailId(folder, idx);
      FreshId(folder, idx, processed);
      if id !in processed {
        var item := items[idx];
        if item.Opened? {
          if TooOld(item, cutoff) {
            assert emails + [] == emails;
            break;
          }
          emails := emails + [RecordOf(folder, idx, item)];
          processed := processed + {id};
        }
      }
      idx := idx + 1;
    }
  }

  /** Reference description of the item loop, separate from its loop shape:
      the scan stops at the first opened item dated before the cutoff... */
  function StopIndex(items: seq<Item>, cutoff: int, i: nat): (k: nat)
    requires i <= |items|
    ensures i <= k <= |items|
    ensures k < |items| ==> TooOld(items[k], cutoff)
    ensures forall j :: i <= j < k ==> !TooOld(items[j], cutoff)
    decreases |items| - i
  {
    if i == |items| then |items|
    else if TooOld(items[i], cutoff) then i
    else StopIndex(items, cutoff, i + 1)
  }

  /** ...and emits, in scan order, the record of every opened item before
      that point. */
  function Successes(folder: string, items: seq<Item>, lo: nat, hi: nat): seq<EmailRecord>
    requires lo <= hi <= |items|
    decreases hi - lo
  {
    if lo == hi then []
    else (if items[lo].Opened? then [RecordOf(folder, lo, items[lo])] else [])
         + Successes(folder, items, lo + 1, hi)
  }

  /** Opened items in positions `lo` to `hi`. */
  function CountOpened(items: seq<Item>, lo: nat, hi: nat): nat
    requires lo <= hi <= |items|
    decreases hi - lo
  {
    if lo == hi then 0 else (if items[lo].Opened? then 1 else 0) + CountOpened(items, lo + 1, hi)
  }

  /** The loop-shaped definition agrees with the reference description. */
  lemma {:induction false} ExtractIsSuccessesBeforeStop(folder: string, items: seq<Item>, cutoff: int, i: nat)
    requires i <= |items|
    ensures ExtractFrom(folder, items, cutoff, i) == Successes(folder, items, i, StopIndex(items, cutoff, i))
    decreases |items| - i
  {
    if i < |items| && !TooOld(items[i], cutoff) {
      ExtractIsSuccessesBeforeStop(folder, items, cutoff, i + 1);
    }
  }

  lemma {:induction false} SuccessHasSource(folder: string, items: seq<Item>, lo: nat, hi: nat, r: EmailRecord)
    requires lo <= hi <= |items| && r in Successes(folder, items, lo, hi)
    ensures exists j :: lo <= j < hi && items[j].Opened? && r == RecordOf(folder, j, items[j])
    decreases hi - lo
  {
    if !(items[lo].Opened? && r == RecordOf(folder, lo, items[lo])) {
      SuccessHasSource(folder, items, lo + 1, hi, r);
      var j :| lo + 1 <= j < hi && items[j].Opened? && r == RecordOf(folder, j, items[j]);
    }
  }

  lemma {:induction false} SourceIsSuccess(folder: string, items: seq<Item>, lo: nat, hi: nat, j: nat)
    requires lo <= j < hi <= |items| && items[j].Opened?
    ensures RecordOf(folder, j, items[j]) in Successes(folder, items, lo, hi)
    decreases j - lo
  {
    if lo < j {
      SourceIsSuccess(folder, items, lo + 1, hi, j);
    }
  }

  lemma SuccessesMembers(folder: string, items: seq<Item>, lo: nat, hi: nat, r: EmailRecord)
    requires lo <= hi <= |items|
    ensures r in Successes(folder, items, lo, hi) <==>
      exists j :: lo <= j < hi && items[j].Opened? && r == RecordOf(folder, j, items[j])
  {
    if r in Successes(folder, items, lo, hi) {
      SuccessHasSource(folder, items, lo, hi, r);
    }
    if exists j :: lo <= j < hi && items[j].Opened? && r == RecordOf(folder, j, items[j]) {
      var j :| lo <= j < hi && items[j].Opened? && r == RecordOf(folder, j, items[j]);
      SourceIsSuccess(folder, items, lo, hi, j);
    }
  }

  lemma {:induction false} SuccessesLength(folder: string, items: seq<Item>, lo: nat, hi: nat)
    requires lo <= hi <= |items|
    ensures |Successes(folder, items, lo, hi)| == CountOpened(items, lo, hi)
    decreases hi - lo
  {
    if lo < hi {
      SuccessesLength(folder, items, lo + 1, hi);
    }
  }

  /** A record is returned exactly when it belongs to an item that opened
      and comes before the first opened item dated before the cutoff. */
  lemma ExtractMembers(folder: string, items: seq<Item>, cutoff: int, r: EmailRecord)
    ensures r in Extract(folder, items, cutoff) <==>
      exists j :: 0 <= j < StopIndex(items, cutoff, 0) && items[j].Opened? && r == RecordOf(folder, j, items[j])
  {
    ExtractIsSuccessesBeforeStop(folder, items, cutoff, 0);
    SuccessesMembers(folder, items, 0, StopIndex(items, cutoff, 0), r);
  }

  /** No returned record is dated before the cutoff; a record without a
      parsed date is kept. */
  lemma ExtractRespectsCutoff(folder: string, items: seq<Item>, cutoff: int)
    ensures forall r :: r in Extract(folder, items, cutoff) ==>
      r.dateParsed.None? || r.dateParsed.value >= cutoff
  {
    forall r | r in Extract(folder, items, cutoff)
      ensures r.dateParsed.None? || r.dateParsed.value >= cutoff
    {
      ExtractMembers(folder, items, cutoff, r);
    }
  }

  /** Failure isolation: every item before the stop that opened yields one
      record, so a failed item costs exactly its own record. */
  lemma ExtractLength(folder: string, items: seq<Item>, cutoff: int)
    ensures |Extract(folder, items, cutoff)| == CountOpened(items, 0, StopIndex(items, cutoff, 0))
  {
    ExtractIsSuccessesBeforeStop(folder, items, cutoff, 0);
    SuccessesLength(folder, items, 0, StopIndex(items, cutoff, 0));
  }

  lemma {:induction false} CountOpenedAllButOne(items: seq<Item>, lo: nat, hi: nat, k: nat)
    requires lo <= k < hi <= |items|
    requires forall j :: lo <= j < hi && j != k ==> items[j].Opened?
    requires items[k].OpenFailed?
    ensures CountOpened(items, lo, hi) == hi - lo - 1
    decreases hi - lo
  {
    if lo < k {
      CountOpenedAllButOne(items, lo + 1, hi, k);
    } else {
      CountOpenedAll(items, lo + 1, hi);
    }
  }

  lemma {:induction false} CountOpenedAll(items: seq<Item>, lo: nat, hi: nat)
    requires lo <= hi <= |items|
    requires forall j :: lo <= j < hi ==> items[j].Opened?
    ensures CountOpened(items, lo, hi) == hi - lo
    decreases hi - lo
  {
    if lo < hi {
      CountOpenedAll(items, lo + 1, hi);
    }
  }

  /** A folder of `n` messages, none too old, where message `k` fails to
      open, yields `n - 1` records. */
  lemma OneFailureCostsOneRecord(folder: string, items: seq<Item>, cutoff: int, k: nat)
    requires k < |items| && items[k].OpenFailed?
    requires forall j :: 0 <= j < |items| && j != k ==> items[j].Opened? && !TooOld(items[j], cutoff)
    ensures |Extract(folder, items, cutoff)| == |items| - 1
  {
    ExtractLength(folder, items, cutoff);
    CountOpenedAllButOne(items, 0, |items|, k);
  }

  lemma {:induction false} ExtractFromIdsAfter(folder: string, items: seq<Item>, cutoff: int, i: nat)
    requires i <= |items|
    ensures forall r :: r in ExtractFrom(folder, items, cutoff, i) ==>
      exists j :: i <= j < |items| && r.id == EmailId(folder, j)
    ensures forall a, b :: 0 <= a < b < |ExtractFrom(folder, items, cutoff, i)| ==>
      ExtractFrom(folder, items, cutoff, i)[a].id != ExtractFrom(folder, items, cutoff, i)[b].id
    decreases |items| - i
  {
    if i < |items| && !TooOld(items[i], cutoff) {
      ExtractFromIdsAfter(folder, items, cutoff, i + 1);
      var tail := ExtractFrom(folder, items, cutoff, i + 1);
      if items[i].Opened? {
        var out := ExtractFrom(folder, items, cutoff, i);
        assert out == [RecordOf(folder, i, items[i])] + tail;
        forall b | 1 <= b < |out| ensures out[0].id != out[b].id {
          assert out[b] in tail;
          var j :| i + 1 <= j < |items| && out[b].id == EmailId(folder, j);
          EmailIdDistinct(folder, i, j);
        }
      }
    }
  }

  /** The returned records have pairwise distinct ids. */
  lemma ExtractIdsDistinct(folder: string, items: seq<Item>, cutoff: int)
    ensures forall a, b :: 0 <= a < b < |Extract(folder, items, cutoff)| ==>
      Extract(folder, items, cutoff)[a].id != Extract(folder, items, cutoff)[b].id
  {
    ExtractFromIdsAfter(folder, items, cutoff, 0);
  }

  /** Dates present and non-increasing in scan order, every item opening:
      an item's record is returned exactly when its date is not before the
      cutoff. */
  lemma CutoffSelectsRecentPrefix(folder: string, items: seq<Item>, cutoff: int)
    requires forall j :: 0 <= j < |items| ==> items[j].Opened? && items[j].date.Some? && items[j].date.value.parsed.Some?
    requires forall i, j :: 0 <= i < j < |items| ==> items[j].date.value.parsed.value <= items[i].date.value.parsed.value
    ensures forall j :: 0 <= j < |items| ==>
      (RecordOf(folder, j, items[j]) in Extract(folder, items, cutoff) <==> items[j].date.value.parsed.value >= cutoff)
  {
    var stop := StopIndex(items, cutoff, 0);
    forall j | 0 <= j < |items|
      ensures RecordOf(folder, j, items[j]) in Extract(folder, items, cutoff) <==> items[j].date.value.parsed.value >= cutoff
    {
      var r := RecordOf(folder, j, items[j]);
      ExtractMembers(folder, items, cutoff, r);
      if items[j].date.value.parsed.value >= cutoff {
        assert j < stop;
        assert items[j].Opened? && r == RecordOf(folder, j, items[j]);
      } else {
        assert stop <= j;
        forall j' | 0 <= j' < stop && items[j'].Opened? ensures r != RecordOf(folder, j', items[j']) {
          assert !TooOld(items[j'], cutoff);
          assert RecordOf(folder, j', items[j']).dateParsed == items[j'].date.value.parsed;
        }
      }
    }
  }
}
