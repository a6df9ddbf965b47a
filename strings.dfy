/** Python string behaviour the scraper relies on: `str.strip()`, `str(int)`,
    single-character `str.replace`, and the "read every element's text, strip
    it, keep it when non-empty" loops that run inside one `try`. */
module Strings {

  datatype Option<T> = None | Some(value: T)

  /** The characters for which Python's `str.isspace()` holds; `str.strip()`
      with no argument removes exactly these from both ends. */
  predicate IsSpace(c: char) {
    || c == '\t' || c == '\n' || c == '\U{0B}' || c == '\U{0C}' || c == '\r'
    || c == '\U{1C}' || c == '\U{1D}' || c == '\U{1E}' || c == '\U{1F}' || c == ' '
    || c == '\U{85}' || c == '\U{A0}' || c == '\U{1680}'
    || c == '\U{2000}' || c == '\U{2001}' || c == '\U{2002}' || c == '\U{2003}' || c == '\U{2004}'
    || c == '\U{2005}' || c == '\U{2006}' || c == '\U{2007}' || c == '\U{2008}' || c == '\U{2009}'
    || c == '\U{200A}' || c == '\U{2028}' || c == '\U{2029}' || c == '\U{202F}' || c == '\U{205F}'
    || c == '\U{3000}'
  }

  /** Drops leading whitespace. */
  function TrimStart(s: string): (r: string)
    ensures |r| <= |s|
  {
    if s != [] && IsSpace(s[0]) then TrimStart(s[1..]) else s
  }

  /** What `TrimStart` drops is whitespace, and what it keeps is the rest of
      `s`, starting with a non-whitespace character. */
  lemma {:induction false} TrimStartFacts(s: string)
    ensures TrimStart(s) == s[|s| - |TrimStart(s)|..]
    ensures TrimStart(s) == [] || !IsSpace(TrimStart(s)[0])
    ensures forall i :: 0 <= i < |s| - |TrimStart(s)| ==> IsSpace(s[i])
  {
    if s != [] && IsSpace(s[0]) {
      TrimStartFacts(s[1..]);
    }
  }

  /** Drops trailing whitespace. */
  function TrimEnd(s: string): (r: string)
    ensures |r| <= |s|
  {
    if s != [] && IsSpace(s[|s| - 1]) then TrimEnd(s[..|s| - 1]) else s
  }

  /** What `TrimEnd` drops is whitespace, and what it keeps is a prefix of
      `s` ending with a non-whitespace character. */
  lemma {:induction false} TrimEndFacts(s: string)
    ensures TrimEnd(s) == s[..|TrimEnd(s)|]
    ensures TrimEnd(s) == [] || !IsSpace(TrimEnd(s)[|TrimEnd(s)| - 1])
    ensures forall i :: |TrimEnd(s)| <= i < |s| ==> IsSpace(s[i])
  {
    if s != [] && IsSpace(s[|s| - 1]) {
      TrimEndFacts(s[..|s| - 1]);
    }
  }

  /** Python's `s.strip()`. */
  function Strip(s: string): (r: string)
    ensures |r| <= |s|
  {
    TrimEnd(TrimStart(s))
  }

  /** `strip()` gives the empty string exactly when `s` is all whitespace,
      and otherwise a string that starts and ends with a non-whitespace
      character. */
  lemma StripFacts(s: string)
    ensures Strip(s) == [] <==> forall i :: 0 <= i < |s| ==> IsSpace(s[i])
    ensures Strip(s) != [] ==> !IsSpace(Strip(s)[0]) && !IsSpace(Strip(s)[|Strip(s)| - 1])
  {
    var t := TrimStart(s);
    var r := TrimEnd(t);
    TrimStartFacts(s);
    TrimEndFacts(t);
    assert r != [] ==> r[0] == t[0];
    assert r == [] ==> t == [];
  }

  predicate IsDigit(c: char) {
    '0' <= c <= '9'
  }

  function DigitChar(d: nat): (c: char)
    requires d < 10
    ensures IsDigit(c)
  {
    (48 + d) as char
  }

  /** Python's `str(n)` (equivalently `f"{n}"`) for a non-negative integer:
      its decimal digits, most significant first, without leading zeros. */
  function DecimalString(n: nat): (r: string)
    ensures 1 <= |r| && (n >= 10 ==> 2 <= |r|)
  {
    if n < 10 then [DigitChar(n)] else DecimalString(n / 10) + [DigitChar(n % 10)]
  }

  /** `str(n)` consists of digits only. */
  lemma {:induction false} DecimalStringDigits(n: nat)
    ensures forall i :: 0 <= i < |DecimalString(n)| ==> IsDigit(DecimalString(n)[i])
  {
    if n >= 10 {
      DecimalStringDigits(n / 10);
    }
  }

  /** Different numbers print differently. */
  lemma {:induction false} DecimalStringDistinct(m: nat, n: nat)
    requires m != n
    ensures DecimalString(m) != DecimalString(n)
  {
    var a, b := DecimalString(m), DecimalString(n);
    if m < 10 && n < 10 {
      assert a[0] != b[0];
    } else if m >= 10 && n >= 10 {
      if m % 10 != n % 10 {
        assert a[|a| - 1] == DigitChar(m % 10);
        assert b[|b| - 1] == DigitChar(n % 10);
        assert a[|a| - 1] != b[|b| - 1];
      } else {
        DecimalStringDistinct(m / 10, n / 10);
        var p, q := DecimalString(m / 10), DecimalString(n / 10);
        assert a[..|a| - 1] == p;
        assert b[..|b| - 1] == q;
      }
    }
  }

  /** Python's `s.replace(c, t)` for a one-character `c`: every occurrence
      of `c`, left to right, becomes `t`. */
  function ReplaceChar(s: string, c: char, t: string): string {
    if s == [] then []
    else (if s[0] == c then t else [s[0]]) + ReplaceChar(s[1..], c, t)
  }

  /** A replacement that does not contain `c` leaves no `c` behind, and a
      string without `c` is left as it is. */
  lemma {:induction false} ReplaceCharRemoves(s: string, c: char, t: string)
    ensures c !in t ==> c !in ReplaceChar(s, c, t)
    ensures c !in s ==> ReplaceChar(s, c, t) == s
  {
    if s != [] {
      ReplaceCharRemoves(s[1..], c, t);
      if c !in s {
        assert c !in s[1..] && s == [s[0]] + s[1..];
      }
    }
  }

  /** Replacing distributes over concatenation. */
  lemma {:induction false} ReplaceCharAppend(a: string, b: string, c: char, t: string)
    ensures ReplaceChar(a + b, c, t) == ReplaceChar(a, c, t) + ReplaceChar(b, c, t)
  {
    if a != [] {
      var h, x, y := if a[0] == c then t else [a[0]], ReplaceChar(a[1..], c, t), ReplaceChar(b, c, t);
      assert (a + b)[0] == a[0] && (a + b)[1..] == a[1..] + b;
      ReplaceCharAppend(a[1..], b, c, t);
      assert ReplaceChar(a + b, c, t) == h + (x + y);
      assert h + (x + y) == (h + x) + y;
    } else {
      assert a + b == b;
    }
  }

  /** A non-empty text that `strip()` leaves unchanged. */
  predicate IsStripped(x: string) {
    x != [] && !IsSpace(x[0]) && !IsSpace(x[|x| - 1])
  }

  /** One element's text as the page returned it, or the point at which
      reading the elements raised. */
  datatype TextRead = Text(text: string) | ReadFailed

  /** Index of the first failed read, or `|elems|`. */
  function FirstFailure(elems: seq<TextRead>): (k: nat)
    ensures k <= |elems|
    ensures k < |elems| ==> elems[k].ReadFailed?
    ensures forall i :: 0 <= i < k ==> elems[i].Text?
  {
    if elems == [] || elems[0].ReadFailed? then 0 else 1 + FirstFailure(elems[1..])
  }

  /** The loop `for e in elems: t = e.inner_text().strip(); if t: out.append(t)`
      run inside a `try` that swallows the exception, from element `i` on:
      the stripped non-empty texts, in page order, up to the first read that
      raised. */
  function CollectFrom(elems: seq<TextRead>, i: nat): (r: seq<string>)
    requires i <= |elems|
    ensures |r| <= |elems| - i
    decreases |elems| - i
  {
    if i == |elems| || elems[i].ReadFailed? then []
    else
      var t := Strip(elems[i].text);
      (if t == [] then [] else [t]) + CollectFrom(elems, i + 1)
  }

  /** The whole loop. */
  function CollectTexts(elems: seq<TextRead>): seq<string> {
    CollectFrom(elems, 0)
  }

  /** Reading element `e` yields the collected text `s`. */
  predicate Yields(e: TextRead, s: string) {
    e.Text? && s != [] && s == Strip(e.text)
  }

  /** Every text collected from element `i` on comes from an element at or
      after `i` and before the first failed read. */
  lemma {:induction false} CollectedHasSource(elems: seq<TextRead>, s: string, i: nat)
    requires i <= FirstFailure(elems) && s in CollectFrom(elems, i)
    ensures exists j :: i <= j < FirstFailure(elems) && Yields(elems[j], s)
    decreases |elems| - i
  {
    var t := Strip(elems[i].text);
    if t != [] && s == t {
      assert Yields(elems[i], s);
    } else {
      CollectedHasSource(elems, s, i + 1);
    }
  }

  /** Every collected text is non-empty and already stripped. */
  lemma CollectedAreStripped(elems: seq<TextRead>, s: string)
    requires s in CollectTexts(elems)
    ensures IsStripped(s)
  {
    CollectedHasSource(elems, s, 0);
    var i :| 0 <= i < FirstFailure(elems) && Yields(elems[i], s);
    StripFacts(elems[i].text);
  }

  /** Every element before the first failed read whose stripped text is
      non-empty contributes that text to the collection from any earlier
      index. */
  lemma {:induction false} SourceIsCollected(elems: seq<TextRead>, s: string, i: nat, j: nat)
    requires j <= i < FirstFailure(elems) && Yields(elems[i], s)
    ensures s in CollectFrom(elems, j)
    decreases i - j
  {
    if j < i {
      SourceIsCollected(elems, s, i, j + 1);
    }
  }

  /** A text is collected exactly when some element read before the first
      failure has it as its stripped, non-empty text. */
  lemma CollectTextsMembers(elems: seq<TextRead>, s: string)
    ensures s in CollectTexts(elems) <==> exists i :: 0 <= i < FirstFailure(elems) && Yields(elems[i], s)
  {
    if s in CollectTexts(elems) {
      CollectedHasSource(elems, s, 0);
    }
    if exists i :: 0 <= i < FirstFailure(elems) && Yields(elems[i], s) {
      var i :| 0 <= i < FirstFailure(elems) && Yields(elems[i], s);
      SourceIsCollected(elems, s, i, 0);
    }
  }
}
