/** What the eight fallback expressions extract, stated without reference to
    backtracking: a labelled run yields the whole run of class characters
    after the colon, a date of birth is a date shape, an email is the
    leftmost and then longest address in the text. */
module PatternFacts {
  import opened RubyText
  import opened Patterns

  // ------------------------------------------------------------ runs

  lemma {:induction false} SpacesInClass(cls: CharClass, c: char)
    requires HoldsSpaces(cls) && IsRegexSpace(c)
    ensures InClass(c, cls)
  {
  }

  /** The whole run of class characters starting at c, stripped. */
  function RunValue(t: string, c: nat, cls: CharClass): (r: string)
    requires c <= |t|
    ensures forall k :: 0 <= k < |r| ==> InClass(r[k], cls)
    ensures r == [] || (!IsStripChar(r[0]) && !IsStripChar(r[|r| - 1]))
  {
    StripRange(t, c, RunEnd(t, c, cls))
  }

  /** Where the run of class characters starting at c ends. */
  function RunEnd(t: string, c: nat, cls: CharClass): (e: nat)
    requires c <= |t|
    ensures c <= e <= |t|
  {
    c + Span(t, c, cls)
  }

  /** Alternative `lbl` of a labelled run expression can match at i: the
      label, its colon, and then a character of the class. */
  predicate RunHit(t: string, i: nat, lbl: string, cls: CharClass) {
    LabelColonAt(t, i, lbl) && i + |lbl| + 1 < |t| && InClass(t[i + |lbl| + 1], cls)
  }

  /** `\s*([cls]+)` at c, for a class holding `\s`, succeeds exactly when a
      class character follows. */
  lemma {:induction false} RunCaptureMeaning(t: string, c: nat, cls: CharClass)
    requires c <= |t| && HoldsSpaces(cls)
    ensures CaptureAfter(t, c, Run(cls)).Some? <==> (c < |t| && InClass(t[c], cls))
  {
    var w := SkipSpaces(t, c);
    if w > c {
      SpacesInClass(cls, t[c]);
      SpacesInClass(cls, t[w - 1]);
    }
  }

  /** The capture of `\s*([cls]+)` at c strips to the whole run from c. */
  lemma {:induction false} RunCaptureValue(t: string, c: nat, cls: CharClass, from: nat, to: nat)
    requires c <= |t| && HoldsSpaces(cls)
    requires CaptureAfter(t, c, Run(cls)) == Some((from, to))
    ensures StripRange(t, from, to) == RunValue(t, c, cls)
  {
    var w := SkipSpaces(t, c);
    if w < |t| && InClass(t[w], cls) {
      assert from == w && to == w + Span(t, w, cls);
      RunValueAfterSpaces(t, c, w, to, cls);
    } else {
      assert from == w - 1 && to == w;
      RunOfSpaces(t, c, w, cls);
    }
  }

  /** When the whitespace after c is followed by no class character, the run
      from c is that whitespace and strips to nothing; so does the single
      space that `\s*` gives back. */
  lemma {:induction false} RunOfSpaces(t: string, c: nat, w: nat, cls: CharClass)
    requires c < w <= |t| && HoldsSpaces(cls)
    requires forall k :: c <= k < w ==> IsRegexSpace(t[k])
    requires w == |t| || !InClass(t[w], cls)
    ensures RunValue(t, c, cls) == [] == StripRange(t, w - 1, w)
  {
    SpanAfterSpaces(t, c, w, cls);
    assert Span(t, w, cls) == 0;
    StripAllSpace(t, c, w);
    StripAllSpace(t, w - 1, w);
  }

  /** The run value read from c is the one read after the whitespace,
      which ends at e. */
  lemma {:induction false} RunValueAfterSpaces(t: string, c: nat, w: nat, e: nat, cls: CharClass)
    requires c <= w <= e <= |t| && HoldsSpaces(cls)
    requires forall k :: c <= k < w ==> IsRegexSpace(t[k])
    requires e == w + Span(t, w, cls)
    ensures RunValue(t, c, cls) == StripRange(t, w, e)
  {
    SpanAfterSpaces(t, c, w, cls);
    assert RunEnd(t, c, cls) == e;
    StripSkipsSpaces(t, c, w, e);
  }

  /** A class holding `\s` runs through leading whitespace. */
  lemma {:induction false} SpanAfterSpaces(t: string, c: nat, w: nat, cls: CharClass)
    requires c <= w <= |t| && HoldsSpaces(cls)
    requires forall k :: c <= k < w ==> IsRegexSpace(t[k])
    ensures Span(t, c, cls) == (w - c) + Span(t, w, cls)
  {
    forall k | c <= k < w
      ensures InClass(t[k], cls)
    {
      SpacesInClass(cls, t[k]);
    }
    SpanSplit(t, c, w, cls);
  }

  lemma {:induction false} TryRun(t: string, i: nat, lbl: string, cls: CharClass)
    requires i <= |t| && HoldsSpaces(cls)
    ensures Try(t, i, lbl, Run(cls)).Some? <==> RunHit(t, i, lbl, cls)
  {
    if LabelColonAt(t, i, lbl) {
      RunCaptureMeaning(t, i + |lbl| + 1, cls);
    }
  }

  lemma {:induction false} TryRunValue(t: string, i: nat, lbl: string, cls: CharClass, from: nat, to: nat)
    requires i <= |t| && HoldsSpaces(cls)
    requires Try(t, i, lbl, Run(cls)) == Some((from, to))
    ensures StripRange(t, from, to) == RunValue(t, i + |lbl| + 1, cls)
  {
    RunCaptureValue(t, i + |lbl| + 1, cls, from, to);
  }

  /** h is where the labelled run expression matches in t: a label, its
      colon and a class character at h.start, with no such label anywhere
      earlier and no earlier-listed label at h.start itself. */
  ghost predicate FirstRunMatch(t: string, labels: seq<string>, cls: CharClass, h: Hit) {
    && h.start <= |t| && h.alt < |labels|
    && RunHit(t, h.start, labels[h.alt], cls)
    && (forall i, k :: 0 <= i < h.start && 0 <= k < |labels| ==> !RunHit(t, i, labels[k], cls))
    && (forall k :: 0 <= k < h.alt ==> !RunHit(t, h.start, labels[k], cls))
  }

  /** A labelled run expression (name, phone, insurance, provider, reason,
      notes) matches exactly when some label is followed by its colon and a
      class character. */
  lemma {:induction false} LabelledRunExtract(t: string, labels: seq<string>, cls: CharClass)
    requires HoldsSpaces(cls)
    ensures Search(t, Labelled(labels, Run(cls))).None? <==>
              forall i, k :: 0 <= i <= |t| && 0 <= k < |labels| ==> !RunHit(t, i, labels[k], cls)
  {
    match Search(t, Labelled(labels, Run(cls)))
    case None => LabelledRunMissing(t, labels, cls);
    case Some(h) => LabelledRunFound(t, labels, cls, h);
  }

  lemma {:induction false} LabelledRunMissing(t: string, labels: seq<string>, cls: CharClass)
    requires HoldsSpaces(cls) && Search(t, Labelled(labels, Run(cls))).None?
    ensures forall i, k :: 0 <= i <= |t| && 0 <= k < |labels| ==> !RunHit(t, i, labels[k], cls)
  {
    forall i, k | 0 <= i <= |t| && 0 <= k < |labels|
      ensures !RunHit(t, i, labels[k], cls)
    {
      assert MatchAt(t, i, Labelled(labels, Run(cls))).None?;
      RunAlternatives(t, i, labels, cls);
    }
  }

  /** When a labelled run expression matches, the match is at the leftmost
      label followed by its colon and a class character, with the first
      label listed that fits there, and the field is the whole run of class
      characters after that colon, stripped. */
  lemma {:induction false} LabelledRunFound(t: string, labels: seq<string>, cls: CharClass, h: Hit)
    requires HoldsSpaces(cls) && Search(t, Labelled(labels, Run(cls))) == Some(h)
    ensures FirstRunMatch(t, labels, cls, h)
    ensures ExtractPattern(t, Labelled(labels, Run(cls))) == RunValue(t, h.start + |labels[h.alt]| + 1, cls)
  {
    RunLeftmost(t, labels, cls, h);
    RunFirstLabel(t, labels, cls, h);
  }

  /** No label can match before the match's start. */
  lemma {:induction false} RunLeftmost(t: string, labels: seq<string>, cls: CharClass, h: Hit)
    requires HoldsSpaces(cls) && Search(t, Labelled(labels, Run(cls))) == Some(h)
    ensures forall i, k :: 0 <= i < h.start && 0 <= k < |labels| ==> !RunHit(t, i, labels[k], cls)
  {
    forall i, k | 0 <= i < h.start && 0 <= k < |labels|
      ensures !RunHit(t, i, labels[k], cls)
    {
      assert MatchAt(t, i, Labelled(labels, Run(cls))).None?;
      RunAlternatives(t, i, labels, cls);
    }
  }

  /** At the start, the first label that fits is the one matched, and the
      field is the run after its colon. */
  lemma {:induction false} RunFirstLabel(t: string, labels: seq<string>, cls: CharClass, h: Hit)
    requires HoldsSpaces(cls) && Search(t, Labelled(labels, Run(cls))) == Some(h)
    ensures && h.start <= |t| && h.alt < |labels|
            && RunHit(t, h.start, labels[h.alt], cls)
            && (forall k :: 0 <= k < h.alt ==> !RunHit(t, h.start, labels[k], cls))
            && ExtractPattern(t, Labelled(labels, Run(cls))) == RunValue(t, h.start + |labels[h.alt]| + 1, cls)
  {
    var p := Labelled(labels, Run(cls));
    assert MatchAt(t, h.start, p) == Some(h);
    RunHitAt(t, labels, cls, h);
    ExtractAt(t, p, h);
  }

  /** The extracted field is the stripped capture of the match. */
  lemma {:induction false} ExtractAt(t: string, p: Pattern, h: Hit)
    requires Search(t, p) == Some(h)
    ensures h.from <= h.to <= |t| && ExtractPattern(t, p) == StripRange(t, h.from, h.to)
  {
    StripSlice(t, h.from, h.to);
  }

  /** A match of a labelled run expression is made with the first label
      that fits, and its capture strips to the run after that colon. */
  lemma {:induction false} RunHitAt(t: string, labels: seq<string>, cls: CharClass, h: Hit)
    requires h.start <= |t| && HoldsSpaces(cls)
    requires MatchAt(t, h.start, Labelled(labels, Run(cls))) == Some(h)
    ensures h.alt < |labels| && RunHit(t, h.start, labels[h.alt], cls)
    ensures forall k :: 0 <= k < h.alt ==> !RunHit(t, h.start, labels[k], cls)
    ensures StripRange(t, h.from, h.to) == RunValue(t, h.start + |labels[h.alt]| + 1, cls)
  {
    RunHitFirst(t, labels, cls, h);
    RunHitTry(t, labels, cls, h);
    TryRunValue(t, h.start, labels[h.alt], cls, h.from, h.to);
  }

  lemma {:induction false} RunHitFirst(t: string, labels: seq<string>, cls: CharClass, h: Hit)
    requires h.start <= |t| && HoldsSpaces(cls)
    requires MatchAt(t, h.start, Labelled(labels, Run(cls))) == Some(h)
    ensures h.alt < |labels| && RunHit(t, h.start, labels[h.alt], cls)
    ensures forall k :: 0 <= k < h.alt ==> !RunHit(t, h.start, labels[k], cls)
  {
    var i := h.start;
    forall k | 0 <= k < h.alt
      ensures !RunHit(t, i, labels[k], cls)
    {
      TryRun(t, i, labels[k], cls);
    }
    assert MatchAlternatives(t, i, labels, Run(cls)) == Some(h);
    TryRun(t, i, labels[h.alt], cls);
  }

  lemma {:induction false} RunHitTry(t: string, labels: seq<string>, cls: CharClass, h: Hit)
    requires h.start <= |t|
    requires MatchAt(t, h.start, Labelled(labels, Run(cls))) == Some(h)
    ensures h.alt < |labels| && Try(t, h.start, labels[h.alt], Run(cls)) == Some((h.from, h.to))
  {
    assert MatchAlternatives(t, h.start, labels, Run(cls)) == Some(h);
  }

  /** The labelled run expression at one position: the first label that
      can match there is the one that does. */
  lemma {:induction false} RunAlternatives(t: string, i: nat, labels: seq<string>, cls: CharClass)
    requires i <= |t| && HoldsSpaces(cls)
    ensures MatchAt(t, i, Labelled(labels, Run(cls))).None? <==>
              forall k :: 0 <= k < |labels| ==> !RunHit(t, i, labels[k], cls)
    ensures MatchAt(t, i, Labelled(labels, Run(cls))).Some? ==>
              var h := MatchAt(t, i, Labelled(labels, Run(cls))).value;
              && h.alt < |labels| && RunHit(t, i, labels[h.alt], cls)
              && (forall k :: 0 <= k < h.alt ==> !RunHit(t, i, labels[k], cls))
  {
    forall k | 0 <= k < |labels|
      ensures Try(t, i, labels[k], Run(cls)).Some? <==> RunHit(t, i, labels[k], cls)
    {
      TryRun(t, i, labels[k], cls);
    }
    var m := MatchAlternatives(t, i, labels, Run(cls));
    assert MatchAt(t, i, Labelled(labels, Run(cls))) == m;
    if m.Some? {
      TryRun(t, i, labels[m.value.alt], cls);
    }
  }

  // ---------------------------------------------------------- the date

  /** `\d{1,2}[-\/]` reads a digits and a separator whenever they are there. */
  lemma {:induction false} NumberThenSepReads(t: string, p: nat, a: nat)
    requires 1 <= a <= 2 && p + a < |t| && IsDateSep(t[p + a])
    requires forall k :: p <= k < p + a ==> IsAsciiDigit(t[k])
    ensures NumberThenSep(t, p) == Some(p + a + 1)
  {
    assert IsAsciiDigit(t[p]);
  }

  lemma {:induction false} SpanAtLeast(t: string, i: nat, m: nat, cls: CharClass)
    requires i <= m <= |t|
    requires forall k :: i <= k < m ==> InClass(t[k], cls)
    ensures m - i <= Span(t, i, cls)
  {
    SpanSplit(t, i, m, cls);
  }

  /** DateAt finds a date exactly when a date shape starts at w, and what it
      finds is a date shape, the longest one starting there. */
  lemma {:induction false} DateAtMeaning(t: string, w: nat)
    requires w <= |t|
    ensures DateAt(t, w).Some? <==> DateAtPos(t, w)
    ensures DateAt(t, w).Some? ==> exists a, b :: DateSplitAt(t, w, DateAt(t, w).value, a, b)
    ensures forall e: nat, a: nat, b: nat :: DateSplitAt(t, w, e, a, b) ==> DateAt(t, w).Some? && e <= DateAt(t, w).value
  {
    forall e: nat, a: nat, b: nat | DateSplitAt(t, w, e, a, b)
      ensures DateAt(t, w).Some? && e <= DateAt(t, w).value
    {
      DateLongest(t, w, e, a, b);
    }
    if DateAt(t, w).Some? {
      DateFound(t, w);
    }
  }

  /** Any date shape starting at w ends no later than the one DateAt finds. */
  lemma {:induction false} DateLongest(t: string, w: nat, e: nat, a: nat, b: nat)
    requires DateSplitAt(t, w, e, a, b)
    ensures DateAt(t, w).Some? && e <= DateAt(t, w).value
  {
    NumberThenSepReads(t, w, a);
    NumberThenSepReads(t, w + a + 1, b);
    SpanAtLeast(t, w + a + b + 2, e, Digits);
  }

  /** What DateAt finds is a date shape. */
  lemma {:induction false} DateFound(t: string, w: nat)
    requires w <= |t| && DateAt(t, w).Some?
    ensures DateSplitAt(t, w, DateAt(t, w).value, NumberThenSep(t, w).value - w - 1,
                        NumberThenSep(t, NumberThenSep(t, w).value).value - NumberThenSep(t, w).value - 1)
  {
  }

  /** A date shape, moved to the start of its own string. */
  lemma {:induction false} DateSplitShift(t: string, w: nat, e: nat, a: nat, b: nat)
    requires DateSplitAt(t, w, e, a, b)
    ensures IsDateShape(t[w..e])
  {
    var s := t[w..e];
    assert forall k :: 0 <= k < |s| ==> s[k] == t[w + k];
    assert DateSplitAt(s, 0, |s|, a, b);
  }

  /** Alternative `lbl` of the date-of-birth expression can match at i: the
      label, its colon, any whitespace and a date shape. */
  ghost predicate DateHit(t: string, i: nat, lbl: string) {
    LabelColonAt(t, i, lbl) && DateAtPos(t, SkipSpaces(t, i + |lbl| + 1))
  }

  lemma {:induction false} TryDate(t: string, i: nat, lbl: string)
    requires i <= |t|
    ensures Try(t, i, lbl, DateShape).Some? <==> DateHit(t, i, lbl)
    ensures Try(t, i, lbl, DateShape).Some? ==>
              var g := Try(t, i, lbl, DateShape).value;
              && g.0 == SkipSpaces(t, i + |lbl| + 1)
              && DateAt(t, g.0) == Some(g.1)
  {
    if LabelColonAt(t, i, lbl) {
      DateAtMeaning(t, SkipSpaces(t, i + |lbl| + 1));
    }
  }

  /** A string of digits and separators strips to itself. */
  lemma {:induction false} DateStripsToItself(s: string)
    requires IsDateShape(s)
    ensures Strip(s) == s && s != NotFound
  {
    var a, b :| DateSplitAt(s, 0, |s|, a, b);
    assert IsAsciiDigit(s[0]) && IsAsciiDigit(s[|s| - 1]);
    StripNoEdge(s);
  }

  /** A labelled date expression at one position: the first label that can
      match there is the one that does, and the date it reads is the one
      DateAt finds after the whitespace. */
  lemma {:induction false} DateAlternatives(t: string, i: nat, labels: seq<string>)
    requires i <= |t|
    ensures MatchAt(t, i, Labelled(labels, DateShape)).None? <==>
              forall k :: 0 <= k < |labels| ==> !DateHit(t, i, labels[k])
    ensures MatchAt(t, i, Labelled(labels, DateShape)).Some? ==>
              var h := MatchAt(t, i, Labelled(labels, DateShape)).value;
              && h.alt < |labels| && DateHit(t, i, labels[h.alt])
              && (forall k :: 0 <= k < h.alt ==> !DateHit(t, i, labels[k]))
              && h.from == SkipSpaces(t, i + |labels[h.alt]| + 1)
              && DateAt(t, h.from) == Some(h.to)
  {
    forall k | 0 <= k < |labels|
      ensures Try(t, i, labels[k], DateShape).Some? <==> DateHit(t, i, labels[k])
    {
      TryDate(t, i, labels[k]);
    }
    var m := MatchAlternatives(t, i, labels, DateShape);
    assert MatchAt(t, i, Labelled(labels, DateShape)) == m;
    if m.Some? {
      TryDate(t, i, labels[m.value.alt]);
    }
  }

  /** A labelled date expression: it matches exactly when some label is
      followed by its colon, whitespace and a date shape; the match is at the
      leftmost such label, the first listed that fits there, and the field is
      a date shape, the longest that starts after the whitespace. */
  lemma {:induction false} LabelledDateExtract(t: string, labels: seq<string>)
    ensures Search(t, Labelled(labels, DateShape)).None? <==>
              forall i, k :: 0 <= i <= |t| && 0 <= k < |labels| ==> !DateHit(t, i, labels[k])
    ensures Search(t, Labelled(labels, DateShape)).Some? ==>
              var h := Search(t, Labelled(labels, DateShape)).value;
              && h.alt < |labels|
              && DateHit(t, h.start, labels[h.alt])
              && (forall i, k :: 0 <= i < h.start && 0 <= k < |labels| ==> !DateHit(t, i, labels[k]))
              && (forall k :: 0 <= k < h.alt ==> !DateHit(t, h.start, labels[k]))
              && h.from == SkipSpaces(t, h.start + |labels[h.alt]| + 1)
              && IsDateShape(t[h.from..h.to])
              && ExtractPattern(t, Labelled(labels, DateShape)) == t[h.from..h.to] != NotFound
              && (forall e: nat, a: nat, b: nat :: DateSplitAt(t, h.from, e, a, b) ==> e <= h.to)
  {
    var p := Labelled(labels, DateShape);
    match Search(t, p)
    case None =>
      forall i, k | 0 <= i <= |t| && 0 <= k < |labels|
        ensures !DateHit(t, i, labels[k])
      {
        assert MatchAt(t, i, p).None?;
        DateAlternatives(t, i, labels);
      }
    case Some(h) =>
      forall i, k | 0 <= i < h.start && 0 <= k < |labels|
        ensures !DateHit(t, i, labels[k])
      {
        assert MatchAt(t, i, p).None?;
        DateAlternatives(t, i, labels);
      }
      DateAlternatives(t, h.start, labels);
      DateAtMeaning(t, h.from);
      var a, b :| DateSplitAt(t, h.from, h.to, a, b);
      DateSplitShift(t, h.from, h.to, a, b);
      DateStripsToItself(t[h.from..h.to]);
  }

  /** The date-of-birth expression: the field is "Not found" exactly when no
      label is followed by its colon, whitespace and a date shape; otherwise
      it is a date shape. */
  lemma {:induction false} DateOfBirthExtract(t: string)
    ensures ExtractPattern(t, DateOfBirthPattern) == NotFound <==>
              forall i, k :: 0 <= i <= |t| && 0 <= k < |DateOfBirthPattern.labels| ==>
                !DateHit(t, i, DateOfBirthPattern.labels[k])
    ensures ExtractPattern(t, DateOfBirthPattern) != NotFound ==>
              IsDateShape(ExtractPattern(t, DateOfBirthPattern))
  {
    LabelledDateExtract(t, DateOfBirthPattern.labels);
  }

  // --------------------------------------------------------- the email

  /** Any address that starts at i ends no later than the one EmailAt finds. */
  lemma {:induction false} EmailLongest(t: string, i: nat, a: nat, q: nat, j: nat)
    requires EmailSplit(t, i, a, q, j)
    ensures EmailAt(t, i).Some? && j <= EmailAt(t, i).value
  {
    LocalPartEnd(t, i, a, q, j);
    assert EmailAt(t, i) == DomainAfter(t, a);
    DomainLongest(t, a, q, j);
  }

  /** The local part of an address runs up to its '@'. */
  lemma {:induction false} LocalPartEnd(t: string, i: nat, a: nat, q: nat, j: nat)
    requires EmailSplit(t, i, a, q, j)
    ensures i + Span(t, i, LocalChars) == a
  {
    SpanSplit(t, i, a, LocalChars);
    assert Span(t, a, LocalChars) == 0;
  }

  /** Any domain after the '@' at a ends no later than DomainAfter's. */
  lemma {:induction false} DomainLongest(t: string, a: nat, q: nat, j: nat)
    requires a + 1 < q && q + 3 <= j <= |t|
    requires forall k :: a < k < q ==> InClass(t[k], DomainChars)
    requires t[q] == '.' && forall k :: q < k < j ==> IsAsciiLetter(t[k])
    ensures DomainAfter(t, a).Some? && j <= DomainAfter(t, a).value
  {
    var e := a + 1 + Span(t, a + 1, DomainChars);
    DomainLastDot(t, a, q, j, e);
    var qq := LastTldDot(t, a + 2, e).value;
    assert DomainAfter(t, a) == Some(qq + 1 + Span(t, qq + 1, Letters));
    TopLevelLongest(t, q, j, qq);
  }

  /** The greedy domain part reaches past the dot at q, so the last dot
      DomainAfter settles on is at q or later. */
  lemma {:induction false} DomainLastDot(t: string, a: nat, q: nat, j: nat, e: nat)
    requires a + 1 < q && q + 3 <= j <= |t|
    requires forall k :: a < k < q ==> InClass(t[k], DomainChars)
    requires t[q] == '.' && forall k :: q < k < j ==> IsAsciiLetter(t[k])
    requires e == a + 1 + Span(t, a + 1, DomainChars)
    ensures LastTldDot(t, a + 2, e).Some? && q <= LastTldDot(t, a + 2, e).value
  {
    forall k | a + 1 <= k < q + 3
      ensures InClass(t[k], DomainChars)
    {
      if k >= q {
        assert t[k] == '.' || IsAsciiLetter(t[k]);
      }
    }
    SpanAtLeast(t, a + 1, q + 3, DomainChars);
    assert TldDot(t, q);
  }

  /** The letters after the dot chosen reach at least to j. */
  lemma {:induction false} TopLevelLongest(t: string, q: nat, j: nat, qq: nat)
    requires q + 3 <= j <= |t|
    requires t[q] == '.' && forall k :: q < k < j ==> IsAsciiLetter(t[k])
    requires q <= qq && TldDot(t, qq)
    ensures j <= qq + 1 + Span(t, qq + 1, Letters)
  {
    if qq == q {
      SpanAtLeast(t, q + 1, j, Letters);
    } else {
      assert qq >= j;
    }
  }

  /** EmailAt finds an address exactly when one starts at i, and the
      longest one. */
  lemma {:induction false} EmailAtMeaning(t: string, i: nat)
    requires i <= |t|
    ensures EmailAt(t, i).Some? ==> EmailMatch(t, i, EmailAt(t, i).value)
    ensures forall a: nat, q: nat, j: nat :: EmailSplit(t, i, a, q, j) ==> EmailAt(t, i).Some? && j <= EmailAt(t, i).value
  {
    forall a: nat, q: nat, j: nat | EmailSplit(t, i, a, q, j)
      ensures EmailAt(t, i).Some? && j <= EmailAt(t, i).value
    {
      EmailLongest(t, i, a, q, j);
    }
    match EmailAt(t, i)
    case None =>
    case Some(j) =>
      var a := i + Span(t, i, LocalChars);
      assert DomainAfter(t, a) == Some(j);
      var e := a + 1 + Span(t, a + 1, DomainChars);
      var q := LastTldDot(t, a + 2, e).value;
      assert j == q + 1 + Span(t, q + 1, Letters);
      EmailFound(t, i, a, e, q, j);
  }

  /** The pieces EmailAt reads form an address. */
  lemma {:induction false} EmailFound(t: string, i: nat, a: nat, e: nat, q: nat, j: nat)
    requires i < a < |t| && a == i + Span(t, i, LocalChars) && t[a] == '@'
    requires e == a + 1 + Span(t, a + 1, DomainChars)
    requires LastTldDot(t, a + 2, e) == Some(q)
    requires j == q + 1 + Span(t, q + 1, Letters)
    ensures EmailSplit(t, i, a, q, j)
  {
    assert IsAsciiLetter(t[q + 1]) && IsAsciiLetter(t[q + 2]);
    assert Span(t, q + 1, Letters) == 1 + Span(t, q + 2, Letters);
    assert Span(t, q + 2, Letters) == 1 + Span(t, q + 3, Letters);
  }

  /** The shape of an address, as a property of a whole string. */
  ghost predicate IsEmailShape(s: string) {
    EmailMatch(s, 0, |s|)
  }

  /** An extracted address holds exactly one '@', with a non-empty local
      part before it and a dotted domain after it. */
  lemma {:induction false} EmailShapeOneAt(s: string)
    requires IsEmailShape(s)
    ensures '@' in s
    ensures forall k, l :: 0 <= k < l < |s| && s[k] == '@' ==> s[l] != '@'
    ensures s[0] != '@' && s[|s| - 1] != '@'
  {
    var a: nat, q: nat :| EmailSplit(s, 0, a, q, |s|);
    assert s[a] == '@';
  }

  lemma {:induction false} EmailSplitShift(t: string, i: nat, a: nat, q: nat, j: nat)
    requires EmailSplit(t, i, a, q, j)
    ensures IsEmailShape(t[i..j]) && Strip(t[i..j]) == t[i..j] && t[i..j] != NotFound
  {
    var s := t[i..j];
    assert forall k :: 0 <= k < |s| ==> s[k] == t[i + k];
    assert EmailSplit(s, 0, a - i, q - i, |s|);
    StripNoEdge(s);
  }

  /** The email expression: the field is "Not found" exactly when the text
      holds no address; otherwise it is an address, the one starting
      leftmost, taken as long as it goes. */
  lemma {:induction false} EmailExtract(t: string)
    ensures ExtractPattern(t, EmailPattern) == NotFound <==>
              forall i: nat, a: nat, q: nat, j: nat :: !EmailSplit(t, i, a, q, j)
    ensures ExtractPattern(t, EmailPattern) != NotFound ==> IsEmailShape(ExtractPattern(t, EmailPattern))
    ensures Search(t, EmailPattern).Some? ==>
              var h := Search(t, EmailPattern).value;
              && ExtractPattern(t, EmailPattern) == t[h.start..h.to]
              && (forall i: nat, a: nat, q: nat, j: nat :: i < h.start ==> !EmailSplit(t, i, a, q, j))
              && (forall a: nat, q: nat, j: nat :: EmailSplit(t, h.start, a, q, j) ==> j <= h.to)
  {
    var p := EmailPattern;
    match Search(t, p)
    case None =>
      forall i: nat, a: nat, q: nat, j: nat
        ensures !EmailSplit(t, i, a, q, j)
      {
        if i <= |t| {
          assert MatchAt(t, i, p).None?;
          EmailAtMeaning(t, i);
        }
      }
    case Some(h) =>
      forall i: nat, a: nat, q: nat, j: nat | i < h.start
        ensures !EmailSplit(t, i, a, q, j)
      {
        assert MatchAt(t, i, p).None?;
        EmailAtMeaning(t, i);
      }
      EmailAtMeaning(t, h.start);
      var a, q :| EmailSplit(t, h.start, a, q, h.to);
      EmailSplitShift(t, h.start, a, q, h.to);
  }
}
