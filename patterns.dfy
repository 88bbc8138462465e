/** The eight fallback regular expressions of the field extractor, each as a
    small hand-written matcher with Ruby's `String#match` semantics: the
    leftmost starting position wins, alternatives of `(?:a|b|c)` are tried in
    order, and repetitions are greedy, giving characters back only when the
    rest of the expression needs them. */
module Patterns {
  import opened RubyText

  /** The sentinel the extractor stores for a field it could not match. */
  const NotFound: string := "Not found"

  /** The character classes that occur in the eight expressions. Under the
      `/i` flag the labelled classes are unchanged: `[A-Za-z]` already holds
      both cases. */
  datatype CharClass =
    | NameChars       // [A-Za-z\s,]
    | PhoneChars      // [\d\s\-\(\)\.]
    | InsuranceChars  // [A-Za-z\s\d]
    | ProseChars      // [A-Za-z\s,\.]
    | LocalChars      // [a-zA-Z0-9._%+-]
    | DomainChars     // [a-zA-Z0-9.-]
    | Letters         // [a-zA-Z]
    | Digits          // \d
    | Spaces          // \s

  predicate InClass(c: char, cls: CharClass) {
    match cls
    case NameChars => IsAsciiLetter(c) || IsRegexSpace(c) || c == ','
    case PhoneChars => IsAsciiDigit(c) || IsRegexSpace(c) || c == '-' || c == '(' || c == ')' || c == '.'
    case InsuranceChars => IsAsciiLetter(c) || IsRegexSpace(c) || IsAsciiDigit(c)
    case ProseChars => IsAsciiLetter(c) || IsRegexSpace(c) || c == ',' || c == '.'
    case LocalChars =>
      IsAsciiLetter(c) || IsAsciiDigit(c) || c == '.' || c == '_' || c == '%' || c == '+' || c == '-'
    case DomainChars => IsAsciiLetter(c) || IsAsciiDigit(c) || c == '.' || c == '-'
    case Letters => IsAsciiLetter(c)
    case Digits => IsAsciiDigit(c)
    case Spaces => IsRegexSpace(c)
  }

  /** A class that contains every character of `\s`. */
  predicate HoldsSpaces(cls: CharClass) {
    cls in {NameChars, PhoneChars, InsuranceChars, ProseChars, Spaces}
  }

  /** Length of the greedy run `cls*` at position i. */
  function Span(t: string, i: nat, cls: CharClass): (n: nat)
    requires i <= |t|
    ensures i + n <= |t|
    ensures forall k :: i <= k < i + n ==> InClass(t[k], cls)
    ensures i + n == |t| || !InClass(t[i + n], cls)
    decreases |t| - i
  {
    if i < |t| && InClass(t[i], cls) then 1 + Span(t, i + 1, cls) else 0
  }

  /** A run can be measured in two steps. */
  lemma {:induction false} SpanSplit(t: string, i: nat, m: nat, cls: CharClass)
    requires i <= m <= |t|
    requires forall k :: i <= k < m ==> InClass(t[k], cls)
    ensures Span(t, i, cls) == (m - i) + Span(t, m, cls)
    decreases m - i
  {
    if i < m {
      SpanSplit(t, i + 1, m, cls);
    }
  }

  /** What follows `lbl:` in a labelled expression. */
  datatype Capture =
    | Run(cls: CharClass)   // \s*([cls]+)
    | DateShape             // \s*(\d{1,2}[-\/]\d{1,2}[-\/]\d{2,4})

  datatype Pattern =
    | Labelled(labels: seq<string>, capture: Capture)   // /(?:l1|l2|...):<capture>/i
    | EmailShape                                         // /([a-zA-Z0-9._%+-]+@[a-zA-Z0-9.-]+\.[a-zA-Z]{2,})/

  /** A match: where it starts, which alternative matched, and the bounds of
      capture group 1. */
  datatype Hit = Hit(start: nat, alt: nat, from: nat, to: nat)

  // ------------------------------------------------------------- labels

  /** `lbl` at position i, compared case-insensitively (labels are written
      in lower case). */
  predicate LabelAt(t: string, i: nat, lbl: string) {
    i + |lbl| <= |t| && forall j :: 0 <= j < |lbl| ==> AsciiLower(t[i + j]) == lbl[j]
  }

  predicate LabelColonAt(t: string, i: nat, lbl: string) {
    LabelAt(t, i, lbl) && i + |lbl| < |t| && t[i + |lbl|] == ':'
  }

  // ---------------------------------------------------------- the date

  predicate IsDateSep(c: char) { c == '-' || c == '/' }

  /** `\d{1,2}[-\/]` at p, giving the position after the separator. The
      digits are greedy; giving one back never helps, as a digit is no
      separator, so at most one reading succeeds. */
  function NumberThenSep(t: string, p: nat): (r: Option<nat>)
    requires p <= |t|
    ensures r.Some? ==> && p + 2 <= r.value <= p + 3 && r.value <= |t|
                        && (forall k :: p <= k < r.value - 1 ==> IsAsciiDigit(t[k]))
                        && IsDateSep(t[r.value - 1])
  {
    if p + 2 < |t| && IsAsciiDigit(t[p]) && IsAsciiDigit(t[p + 1]) && IsDateSep(t[p + 2]) then Some(p + 3)
    else if p + 1 < |t| && IsAsciiDigit(t[p]) && IsDateSep(t[p + 1]) then Some(p + 2)
    else None
  }

  /** `\d{1,2}[-\/]\d{1,2}[-\/]\d{2,4}` at w, giving the end of the greedy
      match: the year takes up to four digits. */
  function DateAt(t: string, w: nat): (r: Option<nat>)
    requires w <= |t|
    ensures r.Some? ==> w <= r.value <= |t|
  {
    match NumberThenSep(t, w)
    case None => None
    case Some(p) =>
      match NumberThenSep(t, p)
      case None => None
      case Some(q) =>
        var n := Span(t, q, Digits);
        if n < 2 then None else Some(q + (if n < 4 then n else 4))
  }

  /** t[w..e] reads as a day/month number of a digits, a separator, one of
      b digits, a separator and 2 to 4 digits. */
  predicate DateSplitAt(t: string, w: nat, e: nat, a: nat, b: nat) {
    && 1 <= a <= 2 && 1 <= b <= 2
    && w + a + b + 4 <= e <= w + a + b + 6 && e <= |t|
    && (forall k :: w <= k < w + a ==> IsAsciiDigit(t[k]))
    && IsDateSep(t[w + a])
    && (forall k :: w + a + 1 <= k < w + a + 1 + b ==> IsAsciiDigit(t[k]))
    && IsDateSep(t[w + a + 1 + b])
    && (forall k :: w + a + b + 2 <= k < e ==> IsAsciiDigit(t[k]))
  }

  /** The shape of a date the fallback accepts, as a property of a string. */
  ghost predicate IsDateShape(s: string) {
    exists a, b :: DateSplitAt(s, 0, |s|, a, b)
  }

  /** Some date shape starts at position w. */
  ghost predicate DateAtPos(t: string, w: nat) {
    exists e, a, b :: DateSplitAt(t, w, e, a, b)
  }

  // --------------------------------------------------------- the email

  /** A '.' at q followed by two letters: where `\.[a-zA-Z]{2,}` can start. */
  predicate TldDot(t: string, q: nat) {
    q + 2 < |t| && t[q] == '.' && IsAsciiLetter(t[q + 1]) && IsAsciiLetter(t[q + 2])
  }

  /** The largest q in [lo, hi) where a top-level domain can start: the
      greedy domain part `[a-zA-Z0-9.-]+` gives characters back one at a time
      until one is found. */
  function LastTldDot(t: string, lo: nat, hi: nat): (r: Option<nat>)
    ensures r.None? ==> forall q :: lo <= q < hi ==> !TldDot(t, q)
    ensures r.Some? ==> lo <= r.value < hi && TldDot(t, r.value)
                        && forall q :: r.value < q < hi ==> !TldDot(t, q)
    decreases hi
  {
    if hi <= lo then None
    else if TldDot(t, hi - 1) then Some(hi - 1)
    else LastTldDot(t, lo, hi - 1)
  }

  /** The email expression at position i, giving the end of the match. */
  function EmailAt(t: string, i: nat): (r: Option<nat>)
    requires i <= |t|
    ensures r.Some? ==> i < r.value <= |t|
  {
    var a := i + Span(t, i, LocalChars);
    if a == i || a == |t| || t[a] != '@' then None
    else DomainAfter(t, a)
  }

  /** The part of the email expression after the '@' at a. */
  function DomainAfter(t: string, a: nat): (r: Option<nat>)
    requires a < |t|
    ensures r.Some? ==> a < r.value <= |t|
  {
    var e := a + 1 + Span(t, a + 1, DomainChars);
    match LastTldDot(t, a + 2, e)
    case None => None
    case Some(q) => Some(q + 1 + Span(t, q + 1, Letters))
  }

  /** t[i..j] is local part, '@' at a, domain part, '.' at q, letters. */
  predicate EmailSplit(t: string, i: nat, a: nat, q: nat, j: nat) {
    && i < a && a + 1 < q && q + 3 <= j <= |t|
    && (forall k :: i <= k < a ==> InClass(t[k], LocalChars))
    && t[a] == '@'
    && (forall k :: a < k < q ==> InClass(t[k], DomainChars))
    && t[q] == '.'
    && (forall k :: q < k < j ==> IsAsciiLetter(t[k]))
  }

  /** t[i..j] is a string the email expression matches as a whole. */
  ghost predicate EmailMatch(t: string, i: nat, j: nat) {
    exists a, q :: EmailSplit(t, i, a, q, j)
  }

  // ------------------------------------------------------- one position

  /** Where a greedy `\s*` starting at c stops. */
  function SkipSpaces(t: string, c: nat): (w: nat)
    requires c <= |t|
    ensures c <= w <= |t|
    ensures forall k :: c <= k < w ==> IsRegexSpace(t[k])
    ensures w == |t| || !IsRegexSpace(t[w])
  {
    c + Span(t, c, Spaces)
  }

  function CaptureAfter(t: string, c: nat, cap: Capture): (r: Option<(nat, nat)>)
    requires c <= |t|
    ensures r.Some? ==> c <= r.value.0 <= r.value.1 <= |t|
  {
    var w := SkipSpaces(t, c);
    match cap
    case Run(cls) =>
      // greedy \s*, then [cls]+; when that fails, \s* gives back one space
      if w < |t| && InClass(t[w], cls) then Some((w, w + Span(t, w, cls)))
      else if w > c && InClass(t[w - 1], cls) then Some((w - 1, w))
      else None
    case DateShape =>
      match DateAt(t, w)
      case None => None
      case Some(e) => Some((w, e))
  }

  /** Alternative `lbl` tried at position i: the label and its colon, then
      the capture, giving the bounds of group 1 when it succeeds. */
  function Try(t: string, i: nat, lbl: string, cap: Capture): (r: Option<(nat, nat)>)
    requires i <= |t|
    ensures r.Some? ==> LabelColonAt(t, i, lbl) && i + |lbl| + 1 <= r.value.0 <= r.value.1 <= |t|
  {
    if LabelColonAt(t, i, lbl) then CaptureAfter(t, i + |lbl| + 1, cap) else None
  }

  /** The first k in [k0, n) at which `tries` succeeds, with its result. */
  function FirstSome(tries: nat -> Option<(nat, nat)>, k0: nat, n: nat): (r: Option<(nat, (nat, nat))>)
    requires k0 <= n
    ensures r.None? ==> forall k :: k0 <= k < n ==> tries(k).None?
    ensures r.Some? ==> && k0 <= r.value.0 < n && tries(r.value.0) == Some(r.value.1)
                        && forall k :: k0 <= k < r.value.0 ==> tries(k).None?
    decreases n - k0
  {
    if k0 == n then None
    else if tries(k0).Some? then Some((k0, tries(k0).value))
    else FirstSome(tries, k0 + 1, n)
  }

  /** `(?:l1|l2|...)` at position i: the alternatives are tried in order, so
      the one that matches is the first that can, and there is no match only
      when none can. */
  function MatchAlternatives(t: string, i: nat, labels: seq<string>, cap: Capture): (r: Option<Hit>)
    requires i <= |t|
    ensures r.None? ==> forall k :: 0 <= k < |labels| ==> Try(t, i, labels[k], cap).None?
    ensures r.Some? ==> && r.value.start == i && r.value.alt < |labels|
                        && Try(t, i, labels[r.value.alt], cap) == Some((r.value.from, r.value.to))
                        && forall k :: 0 <= k < r.value.alt ==> Try(t, i, labels[k], cap).None?
  {
    var tries := (k: nat) => if k < |labels| then Try(t, i, labels[k], cap) else None;
    assert forall k :: 0 <= k < |labels| ==> tries(k) == Try(t, i, labels[k], cap);
    match FirstSome(tries, 0, |labels|)
    case None => None
    case Some((k, c)) => Some(Hit(i, k, c.0, c.1))
  }

  /** The match of pattern p that starts exactly at position i, if any. */
  function MatchAt(t: string, i: nat, p: Pattern): (r: Option<Hit>)
    requires i <= |t|
    ensures r.Some? ==> r.value.start == i && i <= r.value.from <= r.value.to <= |t|
  {
    match p
    case Labelled(labels, cap) => MatchAlternatives(t, i, labels, cap)
    case EmailShape =>
      match EmailAt(t, i)
      case None => None
      case Some(j) => Some(Hit(i, 0, i, j))
  }

  /** The first position in [i, n] at which `hits` holds. */
  function FirstIndex(hits: nat -> bool, i: nat, n: nat): (r: Option<nat>)
    requires i <= n
    ensures r.None? ==> forall i' :: i <= i' <= n ==> !hits(i')
    ensures r.Some? ==> i <= r.value <= n && hits(r.value)
                        && forall i' :: i <= i' < r.value ==> !hits(i')
    decreases n - i
  {
    if hits(i) then Some(i)
    else if i == n then None
    else FirstIndex(hits, i + 1, n)
  }

  /** `String#match`: the match at the leftmost position where there is one. */
  function Search(t: string, p: Pattern): (r: Option<Hit>)
    ensures r.None? ==> forall i :: 0 <= i <= |t| ==> MatchAt(t, i, p).None?
    ensures r.Some? ==> && r.value.start <= |t| && MatchAt(t, r.value.start, p) == r
                        && forall i :: 0 <= i < r.value.start ==> MatchAt(t, i, p).None?
  {
    var hits := (i: nat) => i <= |t| && MatchAt(t, i, p).Some?;
    var first := FirstIndex(hits, 0, |t|);
    assert forall i :: 0 <= i <= |t| ==> hits(i) == MatchAt(t, i, p).Some?;
    match first
    case None => None
    case Some(s) => MatchAt(t, s, p)
  }

  /** `extract_pattern`: the stripped first capture group of the first
      match, or the sentinel when the expression does not match. */
  function ExtractPattern(t: string, p: Pattern): (r: string)
    ensures Search(t, p).None? ==> r == NotFound
    ensures Search(t, p).Some? ==> |r| <= Search(t, p).value.to - Search(t, p).value.from
    ensures Search(t, p).Some? ==> r == [] || (!IsStripChar(r[0]) && !IsStripChar(r[|r| - 1]))
  {
    match Search(t, p)
    case None => NotFound
    case Some(h) => Strip(t[h.from..h.to])
  }

  // ------------------------------------------------- the eight patterns

  const PatientNamePattern: Pattern := Labelled(["patient", "name"], Run(NameChars))
  const DateOfBirthPattern: Pattern := Labelled(["dob", "date of birth", "birth date"], DateShape)
  const PhonePattern: Pattern := Labelled(["phone", "tel", "telephone"], Run(PhoneChars))
  const EmailPattern: Pattern := EmailShape
  const InsurancePattern: Pattern := Labelled(["insurance", "carrier", "plan"], Run(InsuranceChars))
  const ProviderPattern: Pattern :=
    Labelled(["referring", "provider", "physician", "doctor", "dr."], Run(ProseChars))
  const ReasonPattern: Pattern := Labelled(["reason", "diagnosis", "complaint"], Run(ProseChars))
  const NotesPattern: Pattern := Labelled(["notes", "comments", "remarks"], Run(ProseChars))
}
