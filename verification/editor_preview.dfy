/** The live preview of client/src/pages/Editor.jsx as pure projections of
    the editor's resume: which entries show, which section headings show,
    how an experience description becomes bullet points, and the string
    fallbacks of the header, the links and the PDF file name. */
module EditorPreview {
  import opened Js
  import opened ResumeSchema
  import opened EditorState

  const BULLET := '\U{2022}'

  // ---------------------------------------------------------------------
  // Hidden entries

  /** `items.filter(item => !item.hidden)`. */
  function Visible(items: seq<Entry>): (r: seq<Entry>)
    ensures |r| <= |items|
    ensures forall e :: e in r ==> e in items && !IsHidden(e)
  {
    if items == [] then []
    else (if IsHidden(items[0]) then [] else [items[0]]) + Visible(items[1..])
  }

  /** `xs` is `ys` with some elements left out and the rest in order. */
  predicate IsSubsequence<T(==)>(xs: seq<T>, ys: seq<T>)
    decreases |ys|
  {
    || xs == []
    || (&& ys != []
        && ((xs[0] == ys[0] && IsSubsequence(xs[1..], ys[1..])) || IsSubsequence(xs, ys[1..])))
  }

  /** The preview keeps the order of the entries it shows. */
  lemma {:induction false} VisibleIsSubsequence(items: seq<Entry>)
    ensures IsSubsequence(Visible(items), items)
  {
    if items != [] {
      var rest := Visible(items[1..]);
      VisibleIsSubsequence(items[1..]);
      if IsHidden(items[0]) {
        assert Visible(items) == rest;
      } else {
        assert Visible(items) == [items[0]] + rest;
        assert Visible(items)[1..] == rest;
      }
    }
  }

  /** The preview holds every shown entry as often as the section does and
      no hidden entry at all. */
  lemma {:induction false} VisibleCounts(items: seq<Entry>)
    ensures forall e :: multiset(Visible(items))[e] == if IsHidden(e) then 0 else multiset(items)[e]
  {
    if items != [] {
      VisibleCounts(items[1..]);
      assert items == [items[0]] + items[1..];
    }
  }

  /** Toggling the flag of one entry moves the preview by exactly that entry,
      while the section keeps its length. */
  lemma {:induction false} ToggleChangesPreviewByOne(items: seq<Entry>, i: nat)
    requires i < |items|
    ensures |items[i := ToggledHidden(items[i])]| == |items|
    ensures |Visible(items[i := ToggledHidden(items[i])])| ==
              if IsHidden(items[i]) then |Visible(items)| + 1 else |Visible(items)| - 1
  {
    var toggled := items[i := ToggledHidden(items[i])];
    if i > 0 {
      ToggleChangesPreviewByOne(items[1..], i - 1);
      assert toggled[1..] == items[1..][i - 1 := ToggledHidden(items[i])];
    } else {
      assert toggled[1..] == items[1..];
    }
  }

  /** An all-hidden section previews as nothing. */
  lemma {:induction false} AllHiddenPreviewsEmpty(items: seq<Entry>)
    requires forall e :: e in items ==> IsHidden(e)
    ensures Visible(items) == []
  {
    if items != [] {
      AllHiddenPreviewsEmpty(items[1..]);
    }
  }

  /** The entries of a section the preview lists. */
  function Preview(r: Resume, s: Section): seq<Entry> {
    Visible(OrEmpty(Items(r, s)))
  }

  /** Whether the preview renders a section: Experience and Projects test the
      length of the whole array, the other four the length of the shown entries.
      A heading never stands over an empty section, and a section with a
      shown entry always has its heading. */
  predicate ShowsSection(r: Resume, s: Section)
    ensures ShowsSection(r, s) ==> OrEmpty(Items(r, s)) != []
    ensures Preview(r, s) != [] ==> ShowsSection(r, s)
  {
    if s == Experience || s == Projects then |OrEmpty(Items(r, s))| > 0
    else |Preview(r, s)| > 0
  }

  /** When every entry of a non-empty section is hidden, Experience and
      Projects still print their heading over an empty list; the other four
      sections print nothing. */
  lemma HeadingOverHiddenEntries(r: Resume, s: Section)
    requires OrEmpty(Items(r, s)) != []
    requires forall e :: e in OrEmpty(Items(r, s)) ==> IsHidden(e)
    ensures Preview(r, s) == []
    ensures ShowsSection(r, s) <==> (s == Experience || s == Projects)
  {
    AllHiddenPreviewsEmpty(OrEmpty(Items(r, s)));
  }

  /** For the four sections that test the shown entries, the heading
      appears exactly when some entry is shown. */
  lemma {:induction false} HeadingIffShownEntry(r: Resume, s: Section)
    requires s != Experience && s != Projects
    ensures ShowsSection(r, s) <==> exists e :: e in OrEmpty(Items(r, s)) && !IsHidden(e)
  {
    var items := OrEmpty(Items(r, s));
    VisibleCounts(items);
    if e :| e in items && !IsHidden(e) {
      assert multiset(Visible(items))[e] > 0;
    }
  }

  // ---------------------------------------------------------------------
  // Bullet points of an experience description

  /** `text.split('\n')`. */
  function SplitLines(s: string): (r: seq<string>)
    ensures |r| >= 1
    ensures forall l :: l in r ==> '\n' !in l
  {
    if s == [] then [""]
    else
      var rest := SplitLines(s[1..]);
      if s[0] == '\n' then [""] + rest
      else
        assert rest[0] in rest;
        [[s[0]] + rest[0]] + rest[1..]
  }

  /** `lines.join('\n')`. */
  function JoinLines(ls: seq<string>): string {
    if ls == [] then ""
    else if |ls| == 1 then ls[0]
    else ls[0] + "\n" + JoinLines(ls[1..])
  }

  /** Joining the pieces of a split gives back the text. */
  lemma {:induction false} JoinSplit(s: string)
    ensures JoinLines(SplitLines(s)) == s
  {
    if s != [] {
      var rest := SplitLines(s[1..]);
      JoinSplit(s[1..]);
      if s[0] == '\n' {
        assert SplitLines(s) == [""] + rest;
      } else {
        assert SplitLines(s)[1..] == rest[1..];
        if |rest| > 1 {
          assert rest == [rest[0]] + rest[1..];
        }
      }
    }
  }

  /** Splitting after a line without a newline extends the first piece. */
  lemma {:induction false} SplitAfterLine(l: string, t: string)
    requires '\n' !in l
    ensures SplitLines(l + t) == [l + SplitLines(t)[0]] + SplitLines(t)[1..]
  {
    if l == [] {
      var st := SplitLines(t);
      assert l + t == t && l + st[0] == st[0];
      assert st == [st[0]] + st[1..];
    } else {
      assert l[0] in l;
      assert (l + t)[0] == l[0] != '\n';
      assert (l + t)[1..] == l[1..] + t;
      assert forall c :: c in l[1..] ==> c in l;
      SplitAfterLine(l[1..], t);
      var st := SplitLines(t);
      var rest := SplitLines(l[1..] + t);
      assert rest == [l[1..] + st[0]] + st[1..];
      assert SplitLines(l + t) == [[l[0]] + rest[0]] + rest[1..];
      assert rest[0] == l[1..] + st[0] && rest[1..] == st[1..];
      assert l + st[0] == [l[0]] + (l[1..] + st[0]);
    }
  }

  /** Splitting lines joined by newlines gives back the lines. */
  lemma {:induction false} SplitJoin(ls: seq<string>)
    requires |ls| >= 1
    requires forall l :: l in ls ==> '\n' !in l
    ensures SplitLines(JoinLines(ls)) == ls
  {
    if |ls| == 1 {
      SplitAfterLine(ls[0], "");
      assert ls[0] + "" == ls[0];
    } else {
      var t := JoinLines(ls[1..]);
      SplitJoin(ls[1..]);
      assert JoinLines(ls) == ls[0] + ("\n" + t);
      assert ls[0] in ls;
      assert forall l :: l in ls[1..] ==> l in ls;
      SplitAfterLine(ls[0], "\n" + t);
      assert ("\n" + t)[1..] == t;
      assert SplitLines("\n" + t) == [""] + ls[1..];
      assert ls[0] + "" == ls[0];
      assert ls == [ls[0]] + ls[1..];
    }
  }

  /** Every character of `s` from `lo` up to `hi` is whitespace. */
  predicate SpaceBetween(s: string, lo: nat, hi: nat)
    requires lo <= hi <= |s|
  {
    forall k :: lo <= k < hi ==> IsSpace(s[k])
  }

  /** The forward whitespace scan of `trimStart()` and of `\s*`, from `lo`
      and stopping at `hi`: the run it skips is whitespace, and it stops at
      the first character that is not. */
  function SkipSpace(s: string, lo: nat, hi: nat): (n: nat)
    requires lo <= hi <= |s|
    ensures lo <= n <= hi && SpaceBetween(s, lo, n)
    ensures n == hi || !IsSpace(s[n])
    decreases hi - lo
  {
    if lo < hi && IsSpace(s[lo]) then SkipSpace(s, lo + 1, hi) else lo
  }

  /** The backward whitespace scan of `trimEnd()`, from `hi` down to `lo`:
      the run it drops is whitespace, and it stops after the last character
      that is not. */
  function BackSpace(s: string, lo: nat, hi: nat): (n: nat)
    requires lo <= hi <= |s|
    ensures lo <= n <= hi && SpaceBetween(s, n, hi)
    ensures n == lo || !IsSpace(s[n - 1])
    decreases hi - lo
  {
    if lo < hi && IsSpace(s[hi - 1]) then BackSpace(s, lo, hi - 1) else hi
  }

  /** The forward scan stops at the one position that ends the leading run. */
  lemma {:induction false} SkipSpaceExact(s: string, lo: nat, hi: nat, n: nat)
    requires lo <= n <= hi <= |s| && SpaceBetween(s, lo, n)
    requires n == hi || !IsSpace(s[n])
    ensures SkipSpace(s, lo, hi) == n
    decreases n - lo
  {
    if lo < n {
      SkipSpaceExact(s, lo + 1, hi, n);
    }
  }

  /** The backward scan stops at the one position that starts the trailing run. */
  lemma {:induction false} BackSpaceExact(s: string, lo: nat, hi: nat, n: nat)
    requires lo <= n <= hi <= |s| && SpaceBetween(s, n, hi)
    requires n == lo || !IsSpace(s[n - 1])
    ensures BackSpace(s, lo, hi) == n
    decreases hi - n
  {
    if n < hi {
      BackSpaceExact(s, lo, hi - 1, n);
    }
  }

  /** Neither end of the text is whitespace. */
  predicate Trimmed(b: string) {
    b == [] || (!IsSpace(b[0]) && !IsSpace(b[|b| - 1]))
  }

  /** Where `line.trim().replace(/^•\s*\/, '')` sits in `line`: whitespace
      up to `a` and from `b` on, the trimmed text `line[a..b]` with
      whitespace at neither end, and a bullet lead `line[a..c]` that is
      either empty or one bullet followed by whitespace only. The kept text
      `line[c..b]` does not start with whitespace, and without a bullet lead
      it does not start with a bullet either. */
  predicate CleanAt(line: string, a: nat, c: nat, b: nat) {
    && a <= c <= b <= |line|
    && SpaceBetween(line, 0, a) && SpaceBetween(line, b, |line|)
    && (a == b || (!IsSpace(line[a]) && !IsSpace(line[b - 1])))
    && (c == a || (line[a] == BULLET && SpaceBetween(line, a + 1, c)))
    && (c == b || !IsSpace(line[c]))
    && (c == a ==> c == b || line[c] != BULLET)
  }

  /** `line.trim().replace(/^•\s*\/, '')`: the text of the line once the
      surrounding whitespace, and one leading bullet with the whitespace
      after it, are gone. */
  function CleanLine(line: string): (r: string)
    ensures Trimmed(r)
    ensures '\n' !in line ==> '\n' !in r
    ensures exists a: nat, c: nat, b: nat :: CleanAt(line, a, c, b) && r == line[c..b]
  {
    var a := SkipSpace(line, 0, |line|);
    var b := BackSpace(line, a, |line|);
    var c := if a < b && line[a] == BULLET then SkipSpace(line, a + 1, b) else a;
    ScansFindClean(line, a, c, b);
    CleanSlice(line, a, c, b);
    line[c..b]
  }

  /** The three scans of `CleanLine` find the positions `CleanAt` describes. */
  lemma ScansFindClean(line: string, a: nat, c: nat, b: nat)
    requires a == SkipSpace(line, 0, |line|) && b == BackSpace(line, a, |line|)
    requires c == if a < b && line[a] == BULLET then SkipSpace(line, a + 1, b) else a
    ensures CleanAt(line, a, c, b)
  {
  }

  /** The kept text is trimmed and gains no newline. */
  lemma CleanSlice(line: string, a: nat, c: nat, b: nat)
    requires CleanAt(line, a, c, b)
    ensures Trimmed(line[c..b])
    ensures '\n' !in line ==> '\n' !in line[c..b]
  {
    var r := line[c..b];
    assert forall k :: 0 <= k < |r| ==> r[k] == line[c + k];
  }

  /** A trimmed line that does not start with a bullet is kept whole. */
  lemma CleanKeepsPlainLine(line: string)
    requires Trimmed(line) && (line == [] || line[0] != BULLET)
    ensures CleanLine(line) == line
  {
    SkipSpaceExact(line, 0, |line|, 0);
    BackSpaceExact(line, 0, |line|, |line|);
  }

  /** `lines.map(line => line.trim().replace(/^•\s*\/, ''))`. */
  function CleanEach(lines: seq<string>): (r: seq<string>)
    ensures |r| == |lines|
    ensures forall i :: 0 <= i < |lines| ==> r[i] == CleanLine(lines[i])
  {
    if lines == [] then [] else [CleanLine(lines[0])] + CleanEach(lines[1..])
  }

  /** `filter(line => line)`, as the `&&` in the list does: the empty strings
      are dropped. */
  function DropEmpty(xs: seq<string>): (r: seq<string>)
    ensures |r| <= |xs|
    ensures forall b :: b in r ==> b != [] && b in xs
  {
    if xs == [] then []
    else
      var rest := DropEmpty(xs[1..]);
      assert forall b :: b in rest ==> b in xs;
      if xs[0] == [] then rest else [xs[0]] + rest
  }

  /** The kept strings keep their order. */
  lemma {:induction false} DropEmptyInOrder(xs: seq<string>)
    ensures IsSubsequence(DropEmpty(xs), xs)
  {
    if xs != [] {
      DropEmptyInOrder(xs[1..]);
      if xs[0] != [] {
        assert DropEmpty(xs)[1..] == DropEmpty(xs[1..]);
      }
    }
  }

  /** Every non-empty string is kept as often as it occurs; no empty one is. */
  lemma {:induction false} DropEmptyCounts(xs: seq<string>)
    ensures forall b :: multiset(DropEmpty(xs))[b] == if b == [] then 0 else multiset(xs)[b]
  {
    if xs != [] {
      DropEmptyCounts(xs[1..]);
      assert xs == [xs[0]] + xs[1..];
    }
  }

  /** The rendered list items of the cleaned lines: the non-empty cleaned
      lines, in order, each as often as it occurs. */
  function CleanedLines(lines: seq<string>): (r: seq<string>)
    ensures |r| <= |lines|
    ensures forall b :: b in r ==> b != [] && Trimmed(b)
    ensures (forall l :: l in lines ==> '\n' !in l) ==> forall b :: b in r ==> '\n' !in b
    ensures IsSubsequence(r, CleanEach(lines))
    ensures forall b :: multiset(r)[b] == if b == [] then 0 else multiset(CleanEach(lines))[b]
  {
    var cleaned := CleanEach(lines);
    var r := DropEmpty(cleaned);
    DropEmptyInOrder(cleaned);
    DropEmptyCounts(cleaned);
    forall b | b in r ensures Trimmed(b) && ((forall l :: l in lines ==> '\n' !in l) ==> '\n' !in b) {
      var i :| 0 <= i < |cleaned| && cleaned[i] == b;
      assert lines[i] in lines;
    }
    r
  }

  /** The bullet points an experience description renders as: the non-empty
      cleaned lines of its split, in order, each as often as it occurs. */
  function Bullets(description: string): (r: seq<string>)
    ensures |r| <= |SplitLines(description)|
    ensures forall b :: b in r ==> CleanText(b)
    ensures IsSubsequence(r, CleanEach(SplitLines(description)))
    ensures forall b :: multiset(r)[b] ==
                          if b == [] then 0 else multiset(CleanEach(SplitLines(description)))[b]
  {
    CleanedLines(SplitLines(description))
  }

  /** A line that is a bullet mark, one space and a clean text. */
  function Marked(b: string): string {
    [BULLET, ' '] + b
  }

  /** A non-empty line of text with no whitespace at either end. */
  predicate CleanText(b: string) {
    b != [] && '\n' !in b && Trimmed(b)
  }

  function MarkAll(bs: seq<string>): (r: seq<string>)
    ensures |r| == |bs|
    ensures forall i :: 0 <= i < |bs| ==> r[i] == Marked(bs[i])
  {
    if bs == [] then [] else [Marked(bs[0])] + MarkAll(bs[1..])
  }

  /** A marked clean line renders as its text. */
  lemma CleanMarked(b: string)
    requires CleanText(b)
    ensures CleanLine(Marked(b)) == b
  {
    var m := Marked(b);
    assert m[0] == BULLET && m[1] == ' ' && m[2] == b[0];
    assert !IsSpace(BULLET) && IsSpace(' ');
    SkipSpaceExact(m, 0, |m|, 0);
    assert m[|m| - 1] == b[|b| - 1];
    BackSpaceExact(m, 0, |m|, |m|);
    SkipSpaceExact(m, 1, |m|, 2);
    assert m[2..] == b;
  }

  /** Writing clean texts as "• " lines, one per line, renders exactly those
      texts as bullet points. */
  lemma {:induction false} BulletsOfMarkedLines(bs: seq<string>)
    requires forall b :: b in bs ==> CleanText(b)
    ensures Bullets(JoinLines(MarkAll(bs))) == bs
  {
    var lines := MarkAll(bs);
    if bs == [] {
      assert SplitLines("") == [""];
      assert CleanLine("") == "";
    } else {
      forall l | l in lines ensures '\n' !in l {
        var i :| 0 <= i < |lines| && lines[i] == l;
        assert bs[i] in bs;
      }
      SplitJoin(lines);
      CleanedMarked(bs);
    }
  }

  lemma {:induction false} CleanedMarked(bs: seq<string>)
    requires forall b :: b in bs ==> CleanText(b)
    ensures CleanedLines(MarkAll(bs)) == bs
  {
    if bs != [] {
      assert bs[0] in bs;
      CleanMarked(bs[0]);
      assert MarkAll(bs)[1..] == MarkAll(bs[1..]);
      CleanedMarked(bs[1..]);
      assert bs == [bs[0]] + bs[1..];
    }
  }

  // ---------------------------------------------------------------------
  // String fallbacks

  /** The PDF file name: `${fullName || 'Resume'}.pdf`. */
  function PdfFileName(r: Resume): (name: string)
    ensures |name| > 4 && name[|name| - 4..] == ".pdf"
    ensures Truthy(r.personalInfo.fullName) ==> name[..|name| - 4] == r.personalInfo.fullName.value
    ensures !Truthy(r.personalInfo.fullName) ==> name == "Resume.pdf"
  {
    OrElse(r.personalInfo.fullName, "Resume") + ".pdf"
  }

  /** The name printed in the header: `fullName || 'YOUR NAME'`. */
  function HeaderName(r: Resume): (name: string)
    ensures name != ""
    ensures Truthy(r.personalInfo.fullName) ==> name == r.personalInfo.fullName.value
    ensures !Truthy(r.personalInfo.fullName) ==> name == "YOUR NAME"
  {
    OrElse(r.personalInfo.fullName, "YOUR NAME")
  }

  const HTTP := "http://"
  const HTTPS := "https://"

  /** The text of a LinkedIn or website link: `url.replace(/^https?:\/\//, '')`. */
  function LinkText(url: string): (r: string)
    ensures |r| <= |url| && r == url[|url| - |r|..]
  {
    if |url| >= |HTTP| && url[..|HTTP|] == HTTP then url[|HTTP|..]
    else if |url| >= |HTTPS| && url[..|HTTPS|] == HTTPS then url[|HTTPS|..]
    else url
  }

  /** Exactly one scheme is dropped, and a link without one is shown as it is. */
  lemma LinkTextDropsOneScheme(rest: string, url: string)
    ensures LinkText(HTTP + rest) == rest
    ensures LinkText(HTTPS + rest) == rest
    ensures !(|url| >= |HTTP| && url[..|HTTP|] == HTTP) && !(|url| >= |HTTPS| && url[..|HTTPS|] == HTTPS) ==>
              LinkText(url) == url
  {
    assert (HTTP + rest)[..|HTTP|] == HTTP;
    assert (HTTPS + rest)[..|HTTP|] != HTTP by {
      assert (HTTPS + rest)[4] == 's';
    }
    assert (HTTPS + rest)[..|HTTPS|] == HTTPS;
  }
}
