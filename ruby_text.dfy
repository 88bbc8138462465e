/** The handful of Ruby and ActiveSupport string operations the referral
    pipeline relies on: `strip`, `blank?`, `downcase`, `Integer#to_s`,
    `Array#join`, `String#sub` with a literal pattern and `humanize`. */
module RubyText {

  datatype Option<T> = None | Some(value: T)

  /** The characters Ruby's regular-expression escape `\s` matches. */
  predicate IsRegexSpace(c: char) {
    c == ' ' || c == '\t' || c == '\n' || c == '\U{B}' || c == '\U{C}' || c == '\r'
  }

  /** The characters `String#strip` removes at either end: `\s` and NUL. */
  predicate IsStripChar(c: char) {
    c == '\0' || IsRegexSpace(c)
  }

  /** Unicode White_Space, the class `[[:space:]]` that `String#blank?` uses. */
  predicate IsUnicodeSpace(c: char) {
    ('\t' <= c <= '\r') || c == ' ' || c == '\U{85}' || c == '\U{A0}' || c == '\U{1680}'
    || ('\U{2000}' <= c <= '\U{200A}') || c == '\U{2028}' || c == '\U{2029}'
    || c == '\U{202F}' || c == '\U{205F}' || c == '\U{3000}'
  }

  predicate IsAsciiDigit(c: char) { '0' <= c <= '9' }

  predicate IsAsciiLetter(c: char) { ('a' <= c <= 'z') || ('A' <= c <= 'Z') }

  /** ActiveSupport `String#blank?`: empty or made of whitespace only. */
  predicate BlankString(s: string) {
    forall k :: 0 <= k < |s| ==> IsUnicodeSpace(s[k])
  }

  // ---------------------------------------------------------------- strip

  /** The first index in [i, hi) that holds no strip character, or hi. */
  function SkipLead(s: string, i: nat, hi: nat): (j: nat)
    requires i <= hi <= |s|
    ensures i <= j <= hi
    ensures forall k {:trigger IsStripChar(s[k])} :: i <= k < j ==> IsStripChar(s[k])
    ensures j == hi || !IsStripChar(s[j])
    decreases hi - i
  {
    if i < hi && IsStripChar(s[i]) then SkipLead(s, i + 1, hi) else i
  }

  /** The least m in [lo, hi] such that s[m..hi] is made of strip
      characters. */
  function SkipTrail(s: string, lo: nat, hi: nat): (m: nat)
    requires lo <= hi <= |s|
    ensures lo <= m <= hi
    ensures forall k {:trigger IsStripChar(s[k])} :: m <= k < hi ==> IsStripChar(s[k])
    ensures m == lo || !IsStripChar(s[m - 1])
    decreases hi - lo
  {
    if lo < hi && IsStripChar(s[hi - 1]) then SkipTrail(s, lo, hi - 1) else hi
  }

  /** `String#strip` read on t[lo..hi] in place: `lstrip`, then `rstrip`.
      The result neither starts nor ends with whitespace or NUL. */
  function StripRange(t: string, lo: nat, hi: nat): (r: string)
    requires lo <= hi <= |t|
    ensures |r| <= hi - lo
    ensures r == [] || (!IsStripChar(r[0]) && !IsStripChar(r[|r| - 1]))
  {
    var a := SkipLead(t, lo, hi);
    t[a..SkipTrail(t, a, hi)]
  }

  /** `String#strip`. */
  function Strip(s: string): (r: string)
    ensures |r| <= |s|
    ensures r == [] || (!IsStripChar(r[0]) && !IsStripChar(r[|r| - 1]))
  {
    StripRange(s, 0, |s|)
  }

  /** The leading scan has one answer: the first non-strip index. */
  lemma {:induction false} SkipLeadUnique(s: string, i: nat, hi: nat, j: nat)
    requires i <= j <= hi <= |s|
    requires forall k :: i <= k < j ==> IsStripChar(s[k])
    requires j == hi || !IsStripChar(s[j])
    ensures SkipLead(s, i, hi) == j
  {
  }

  /** Likewise the trailing scan. */
  lemma {:induction false} SkipTrailUnique(s: string, lo: nat, hi: nat, m: nat)
    requires lo <= m <= hi <= |s|
    requires forall k :: m <= k < hi ==> IsStripChar(s[k])
    requires m == lo || !IsStripChar(s[m - 1])
    ensures SkipTrail(s, lo, hi) == m
  {
  }

  /** Stripping a slice t[lo..hi] is scanning t itself between lo and hi. */
  lemma {:induction false} StripSlice(t: string, lo: nat, hi: nat)
    requires lo <= hi <= |t|
    ensures Strip(t[lo..hi]) == StripRange(t, lo, hi)
  {
    var s := t[lo..hi];
    var a := SkipLead(t, lo, hi);
    var b := SkipTrail(t, a, hi);
    assert SkipLead(s, 0, |s|) == a - lo by { SkipLeadShift(t, lo, hi, lo); }
    assert SkipTrail(s, a - lo, |s|) == b - lo by { SkipTrailShift(t, lo, hi, a, hi); }
    SliceOfSlice(t, lo, hi, a, b);
  }

  lemma {:induction false} SliceOfSlice(t: string, lo: nat, hi: nat, a: nat, b: nat)
    requires lo <= a <= b <= hi <= |t|
    ensures t[lo..hi][a - lo..b - lo] == t[a..b]
  {
    var u := t[lo..hi][a - lo..b - lo];
    assert forall k :: 0 <= k < |u| ==> u[k] == t[a + k];
  }

  lemma {:induction false} SkipLeadShift(t: string, lo: nat, hi: nat, i: nat)
    requires lo <= i <= hi <= |t|
    ensures SkipLead(t[lo..hi], i - lo, hi - lo) == SkipLead(t, i, hi) - lo
    decreases hi - i
  {
    if i < hi {
      assert t[lo..hi][i - lo] == t[i];
      SkipLeadShift(t, lo, hi, i + 1);
    }
  }

  lemma {:induction false} SkipTrailShift(t: string, lo: nat, hi: nat, a: nat, j: nat)
    requires lo <= a <= j <= hi <= |t|
    ensures SkipTrail(t[lo..hi], a - lo, j - lo) == SkipTrail(t, a, j) - lo
    decreases j - a
  {
    if a < j {
      assert t[lo..hi][j - 1 - lo] == t[j - 1];
      SkipTrailShift(t, lo, hi, a, j - 1);
    }
  }

  /** A string that neither starts nor ends with whitespace or NUL is its
      own strip. */
  lemma {:induction false} StripNoEdge(s: string)
    requires s == [] || (!IsStripChar(s[0]) && !IsStripChar(s[|s| - 1]))
    ensures Strip(s) == s
  {
    SkipLeadUnique(s, 0, |s|, 0);
    SkipTrailUnique(s, 0, |s|, |s|);
  }

  /** Stripping ignores a prefix t[lo..w] made of strip characters. */
  lemma {:induction false} StripSkipsLeading(t: string, lo: nat, w: nat, hi: nat)
    requires lo <= w <= hi <= |t|
    requires forall k :: lo <= k < w ==> IsStripChar(t[k])
    ensures StripRange(t, lo, hi) == StripRange(t, w, hi)
  {
    SkipLeadUnique(t, lo, hi, SkipLead(t, w, hi));
  }

  /** In particular it ignores leading `\s` characters. */
  lemma {:induction false} StripSkipsSpaces(t: string, lo: nat, w: nat, hi: nat)
    requires lo <= w <= hi <= |t|
    requires forall k :: lo <= k < w ==> IsRegexSpace(t[k])
    ensures StripRange(t, lo, hi) == StripRange(t, w, hi)
  {
    StripSkipsLeading(t, lo, w, hi);
  }

  /** A range made of strip characters only strips to the empty string. */
  lemma {:induction false} StripAllSpace(t: string, lo: nat, hi: nat)
    requires lo <= hi <= |t|
    requires forall k :: lo <= k < hi ==> IsStripChar(t[k])
    ensures StripRange(t, lo, hi) == ""
  {
    SkipLeadUnique(t, lo, hi, hi);
  }

  // ------------------------------------------------------------- downcase

  function AsciiLower(c: char): (d: char)
    ensures IsAsciiDigit(c) || c == '.' || c == '/' ==> d == c
    ensures 'A' <= c <= 'Z' ==> 'a' <= d <= 'z'
  {
    if 'A' <= c <= 'Z' then (c as int + 32) as char else c
  }

  /** The upper-case form of an ASCII letter; other characters are kept. */
  function AsciiUpper(c: char): (d: char)
    ensures 'a' <= c <= 'z' ==> d as int == c as int - 32
    ensures !('a' <= c <= 'z') ==> d == c
  {
    if 'a' <= c <= 'z' then (c as int - 32) as char else c
  }

  /** `String#downcase`, restricted to the ASCII letters. */
  function Downcase(s: string): (r: string)
    ensures |r| == |s|
    ensures forall k :: 0 <= k < |s| ==> r[k] == AsciiLower(s[k])
  {
    seq(|s|, k requires 0 <= k < |s| => AsciiLower(s[k]))
  }

  // -------------------------------------------------------- Integer#to_s

  function DigitChar(d: nat): (c: char)
    requires d < 10
    ensures IsAsciiDigit(c)
  {
    "0123456789"[d]
  }

  lemma {:induction false} DigitCharValue(d: nat)
    requires d < 10
    ensures DigitValue(DigitChar(d)) == d
  {
    var digits := "0123456789";
    assert digits[0] == '0' && digits[1] == '1' && digits[2] == '2' && digits[3] == '3' && digits[4] == '4';
    assert digits[5] == '5' && digits[6] == '6' && digits[7] == '7' && digits[8] == '8' && digits[9] == '9';
  }

  /** The value of one decimal digit. */
  function DigitValue(c: char): (d: nat)
    requires IsAsciiDigit(c)
    ensures d < 10
  {
    c as int - '0' as int
  }

  /** The number a string of decimal digits denotes, most significant
      digit first. */
  function DecimalValue(s: string): nat
    requires forall k :: 0 <= k < |s| ==> IsAsciiDigit(s[k])
    decreases |s|
  {
    if s == [] then 0 else 10 * DecimalValue(s[..|s| - 1]) + DigitValue(s[|s| - 1])
  }

  /** `Integer#to_s` for a non-negative integer: its decimal digits. */
  function NatToString(n: nat): (r: string)
    ensures 0 < |r|
    ensures forall k :: 0 <= k < |r| ==> IsAsciiDigit(r[k])
    decreases n
  {
    if n < 10 then [DigitChar(n)] else NatToString(n / 10) + [DigitChar(n % 10)]
  }

  /** The digits denote n, and there is no leading zero. */
  lemma {:induction false} NatToStringValue(n: nat)
    ensures DecimalValue(NatToString(n)) == n
    ensures NatToString(n)[0] == '0' ==> NatToString(n) == "0"
    decreases n
  {
    if n < 10 {
      DigitCharValue(n);
    } else {
      NatToStringValue(n / 10);
      DigitCharValue(n % 10);
      var r := NatToString(n);
      assert r[..|r| - 1] == NatToString(n / 10);
    }
  }

  /** Different page numbers are written differently. */
  lemma {:induction false} NatToStringInjective(n: nat, m: nat)
    requires NatToString(n) == NatToString(m)
    ensures n == m
  {
    NatToStringValue(n);
    NatToStringValue(m);
  }

  // ----------------------------------------------------------- Array#join

  /** Left-to-right concatenation of a sequence of strings. */
  function Concat(ss: seq<string>): (r: string)
    decreases |ss|
  {
    if ss == [] then "" else Concat(ss[..|ss| - 1]) + ss[|ss| - 1]
  }

  /** Each piece sits in the concatenation right after the pieces before it. */
  lemma {:induction false} ConcatPiece(ss: seq<string>, i: nat)
    requires i < |ss|
    ensures var off := |Concat(ss[..i])|;
            && off + |ss[i]| <= |Concat(ss)|
            && Concat(ss)[off..off + |ss[i]|] == ss[i]
    decreases |ss|
  {
    var last := |ss| - 1;
    var front := ss[..last];
    assert Concat(ss) == Concat(front) + ss[last];
    if i == last {
      assert ss[..i] == front;
    } else {
      ConcatPiece(front, i);
      assert front[..i] == ss[..i];
      var off := |Concat(ss[..i])|;
      assert Concat(ss)[off..off + |ss[i]|] == Concat(front)[off..off + |ss[i]|];
    }
  }

  /** `Array#join("\n")`. */
  function JoinLines(ls: seq<string>): (r: string)
    decreases |ls|
  {
    if |ls| == 0 then ""
    else if |ls| == 1 then ls[0]
    else ls[0] + "\n" + JoinLines(ls[1..])
  }

  /** Splitting at every newline: the reference reading of a block of lines. */
  function SplitLines(s: string): (r: seq<string>)
    ensures 0 < |r|
    decreases |s|
  {
    match FindChar(s, '\n', 0)
    case None => [s]
    case Some(i) => [s[..i]] + SplitLines(s[i + 1..])
  }

  function FindChar(s: string, c: char, from: nat): (r: Option<nat>)
    requires from <= |s|
    ensures r.None? ==> forall k :: from <= k < |s| ==> s[k] != c
    ensures r.Some? ==> from <= r.value < |s| && s[r.value] == c
                        && forall k :: from <= k < r.value ==> s[k] != c
    decreases |s| - from
  {
    if from == |s| then None
    else if s[from] == c then Some(from)
    else FindChar(s, c, from + 1)
  }

  /** Joining newline-free lines loses nothing: splitting gives them back. */
  lemma {:induction false} SplitJoinLines(ls: seq<string>)
    requires 0 < |ls|
    requires forall j :: 0 <= j < |ls| ==> '\n' !in ls[j]
    ensures SplitLines(JoinLines(ls)) == ls
  {
    if |ls| == 1 {
      assert FindChar(ls[0], '\n', 0).None?;
    } else {
      var head := ls[0];
      var s := head + "\n" + JoinLines(ls[1..]);
      assert s[|head|] == '\n';
      assert forall k :: 0 <= k < |head| ==> s[k] == head[k];
      var hit := FindChar(s, '\n', 0);
      assert hit == Some(|head|);
      assert s[..|head|] == head;
      assert s[|head| + 1..] == JoinLines(ls[1..]);
      SplitJoinLines(ls[1..]);
    }
  }

  // ------------------------------------------------- String#sub (literal)

  predicate OccursAt(s: string, pat: string, i: nat) {
    i + |pat| <= |s| && s[i..i + |pat|] == pat
  }

  /** `String#index` with a literal pattern: the leftmost occurrence. */
  function FindFirst(s: string, pat: string, from: nat): (r: Option<nat>)
    requires from <= |s|
    ensures r.None? ==> forall i :: from <= i <= |s| ==> !OccursAt(s, pat, i)
    ensures r.Some? ==> from <= r.value && OccursAt(s, pat, r.value)
                        && forall i :: from <= i < r.value ==> !OccursAt(s, pat, i)
    decreases |s| - from
  {
    if OccursAt(s, pat, from) then Some(from)
    else if from == |s| then None
    else FindFirst(s, pat, from + 1)
  }

  /** `String#sub(pat, rep)` with a literal string pattern: replaces the first
      occurrence only, and returns `s` unchanged when there is none. */
  function ReplaceFirst(s: string, pat: string, rep: string): (r: string)
    ensures (forall i :: 0 <= i <= |s| ==> !OccursAt(s, pat, i)) ==> r == s
    ensures forall i :: (0 <= i <= |s| && OccursAt(s, pat, i)
                         && (forall j :: 0 <= j < i ==> !OccursAt(s, pat, j)))
                        ==> r == s[..i] + rep + s[i + |pat|..]
  {
    match FindFirst(s, pat, 0)
    case None => s
    case Some(i) => s[..i] + rep + s[i + |pat|..]
  }

  // ------------------------------------------------------------- humanize

  /** ActiveSupport `humanize` for an underscored key: underscores become
      spaces, letters are lower-cased, and then the first character, when it
      is a letter, is upper-cased. */
  function Humanize(key: string): (r: string)
    ensures |r| == |key|
    ensures forall k :: 0 <= k < |key| && key[k] == '_' ==> r[k] == ' '
    ensures forall k :: 0 <= k < |key| && key[k] != '_' && !IsAsciiLetter(key[k]) ==> r[k] == key[k]
    ensures 0 < |key| && 'a' <= key[0] <= 'z' ==> r[0] == (key[0] as int - 32) as char
    ensures 0 < |key| && 'A' <= key[0] <= 'Z' ==> r[0] == key[0]
    ensures forall k :: 0 < k < |key| && 'A' <= key[k] <= 'Z' ==> r[k] == (key[k] as int + 32) as char
    ensures forall k :: 0 < k < |key| && 'a' <= key[k] <= 'z' ==> r[k] == key[k]
    ensures forall k :: 0 <= k < |key| ==> (r[k] == '\n' <==> key[k] == '\n')
  {
    seq(|key|, k requires 0 <= k < |key| =>
      if key[k] == '_' then ' '
      else if k == 0 then AsciiUpper(key[k])
      else AsciiLower(key[k]))
  }
}
