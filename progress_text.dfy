/** `get_job_progress` of `serverless.py`: pulls the percentage out of the
    first `<progress value="N" max="100"></progress>` and the message out of
    the first `<span>...</span>` of a progress payload's `html` field. The two
    regular expressions are modelled by hand-written scanners, each proved
    to find the leftmost match that the pattern describes. */
module ProgressText {
  import opened Wrappers

  const ProgressOpen: string := "<progress value=\""
  const ProgressClose: string := "\" max=\"100\"></progress>"
  const SpanOpen: string := "<span>"
  const SpanClose: string := "</span>"

  /** `t` occurs in `s` at index `i`. */
  predicate At(s: string, i: int, t: string)
  {
    0 <= i && i + |t| <= |s| && s[i..i + |t|] == t
  }

  predicate IsDigit(c: char) { '0' <= c <= '9' }

  predicate AllDigits(d: string)
  {
    forall k :: 0 <= k < |d| ==> IsDigit(d[k])
  }

  // ---------------------------------------------------------------------
  // The progress pattern  <progress value="(\d+)" max="100"></progress>

  /** The pattern matches at `i` with the digit group `d`. */
  predicate IsProgressMatch(s: string, i: int, d: string)
  {
    && |d| > 0 && AllDigits(d)
    && At(s, i, ProgressOpen)
    && At(s, i + |ProgressOpen|, d)
    && At(s, i + |ProgressOpen| + |d|, ProgressClose)
  }

  /** Length of the run of digits that starts at `j`. */
  function DigitRun(s: string, j: nat): (n: nat)
    requires j <= |s|
    ensures j + n <= |s|
    ensures forall k :: j <= k < j + n ==> IsDigit(s[k])
    ensures j + n == |s| || !IsDigit(s[j + n])
    decreases |s| - j
  {
    if j < |s| && IsDigit(s[j]) then 1 + DigitRun(s, j + 1) else 0
  }

  /** The digit group of a match at `i`, if the pattern matches there. */
  function ProgressAt(s: string, i: nat): (r: Option<string>)
    requires i <= |s|
    ensures r.Some? ==> IsProgressMatch(s, i, r.value)
    ensures r.None? ==> forall d :: !IsProgressMatch(s, i, d)
  {
    if !At(s, i, ProgressOpen) then None
    else
      var j := i + |ProgressOpen|;
      var n := DigitRun(s, j);
      if n > 0 && At(s, j + n, ProgressClose) then
        Some(s[j..j + n])
      else
        assert forall d :: !IsProgressMatch(s, i, d) by {
          forall d | IsProgressMatch(s, i, d) ensures false {
            ProgressMatchShape(s, i, d);
          }
        }
        None
  }

  /** A match's digit group is the whole digit run after the opening text. */
  lemma ProgressMatchShape(s: string, i: nat, d: string)
    requires i <= |s| && IsProgressMatch(s, i, d)
    ensures DigitRun(s, i + |ProgressOpen|) == |d|
  {
    var j := i + |ProgressOpen|;
    assert forall k :: 0 <= k < |d| ==> s[j + k] == d[k];
    assert s[j + |d|] == ProgressClose[0];
  }

  /** `re.search` for the progress pattern from index `from`: the leftmost match. */
  function FindProgress(s: string, from: nat): (r: Option<(nat, string)>)
    requires from <= |s|
    ensures r.Some? ==> from <= r.value.0 <= |s| && IsProgressMatch(s, r.value.0, r.value.1)
    ensures r.Some? ==> forall j, d :: from <= j < r.value.0 ==> !IsProgressMatch(s, j, d)
    ensures r.None? ==> forall j, d :: from <= j <= |s| ==> !IsProgressMatch(s, j, d)
    decreases |s| - from
  {
    match ProgressAt(s, from)
    case Some(d) => Some((from, d))
    case None =>
      if from == |s| then None else FindProgress(s, from + 1)
  }

  /** `int()` of a string of decimal digits. */
  function DecimalValue(d: string): (v: nat)
    requires AllDigits(d)
  {
    if d == [] then 0
    else DecimalValue(d[..|d| - 1]) * 10 + (d[|d| - 1] as int - '0' as int)
  }

  // ---------------------------------------------------------------------
  // The message pattern  <span>(.*?)</span>

  /** The lazy pattern matches at `i` with group `m`: `m` holds no newline
      (`.` does not match one) and `</span>` follows `m` but starts nowhere
      earlier after the opening tag. */
  predicate IsSpanMatch(s: string, i: int, m: string)
  {
    && At(s, i, SpanOpen)
    && At(s, i + |SpanOpen|, m)
    && At(s, i + |SpanOpen| + |m|, SpanClose)
    && (forall k :: 0 <= k < |m| ==> m[k] != '\n')
    && (forall p :: i + |SpanOpen| <= p < i + |SpanOpen| + |m| ==> !At(s, p, SpanClose))
  }

  /** No newline in `s[a..b]`. */
  predicate NoNewline(s: string, a: int, b: int)
    requires 0 <= a && b <= |s|
  {
    forall k :: a <= k < b ==> s[k] != '\n'
  }

  /** Scans from `j` for the first `</span>`, failing at a newline. */
  function SpanCloseFrom(s: string, start: nat, j: nat): (r: Option<nat>)
    requires start <= j <= |s|
    requires NoNewline(s, start, j)
    requires forall k :: start <= k < j ==> !At(s, k, SpanClose)
    ensures r.Some? ==> j <= r.value <= |s| && At(s, r.value, SpanClose) && NoNewline(s, start, r.value)
    ensures r.Some? ==> forall k :: start <= k < r.value ==> !At(s, k, SpanClose)
    ensures r.None? ==> forall e :: j <= e <= |s| && At(s, e, SpanClose) ==> !NoNewline(s, start, e)
    decreases |s| - j
  {
    if At(s, j, SpanClose) then Some(j)
    else if j == |s| then None
    else if s[j] == '\n' then
      assert forall e :: j < e <= |s| ==> !NoNewline(s, start, e) by {
        forall e | j < e <= |s| ensures !NoNewline(s, start, e) { assert s[j] == '\n'; }
      }
      None
    else SpanCloseFrom(s, start, j + 1)
  }

  /** The group of a message match at `i`, if the pattern matches there. */
  function SpanAt(s: string, i: nat): (r: Option<string>)
    requires i <= |s|
    ensures r.Some? ==> IsSpanMatch(s, i, r.value)
    ensures r.None? ==> forall m :: !IsSpanMatch(s, i, m)
  {
    if !At(s, i, SpanOpen) then None
    else
      var start := i + |SpanOpen|;
      match SpanCloseFrom(s, start, start)
      case Some(e) => Some(s[start..e])
      case None => None
  }

  /** `re.search` for the message pattern from index `from`: the leftmost match. */
  function FindSpan(s: string, from: nat): (r: Option<(nat, string)>)
    requires from <= |s|
    ensures r.Some? ==> from <= r.value.0 <= |s| && IsSpanMatch(s, r.value.0, r.value.1)
    ensures r.Some? ==> forall j, m :: from <= j < r.value.0 ==> !IsSpanMatch(s, j, m)
    ensures r.None? ==> forall j, m :: from <= j <= |s| ==> !IsSpanMatch(s, j, m)
    decreases |s| - from
  {
    match SpanAt(s, from)
    case Some(m) => Some((from, m))
    case None =>
      if from == |s| then None else FindSpan(s, from + 1)
  }

  // ---------------------------------------------------------------------

  /** `get_job_progress(data)` given `data.get('html', '')`: an empty `html`
      yields no percentage and no message; otherwise each is taken from the
      leftmost match of its own pattern and is None when that pattern does
      not occur. */
  function GetJobProgress(html: string): (r: (Option<nat>, Option<string>))
    ensures html == [] ==> r == (None, None)
    ensures html != [] ==>
              (r.0.Some? <==> exists i, d :: 0 <= i <= |html| && IsProgressMatch(html, i, d))
    ensures html != [] ==>
              (r.1.Some? <==> exists i, m :: 0 <= i <= |html| && IsSpanMatch(html, i, m))
    ensures r.0.Some? ==> exists i, d :: IsProgressMatch(html, i, d) && r.0.value == DecimalValue(d)
                                          && forall j, d' :: 0 <= j < i ==> !IsProgressMatch(html, j, d')
    ensures r.1.Some? ==> exists i :: IsSpanMatch(html, i, r.1.value)
                                      && forall j, m' :: 0 <= j < i ==> !IsSpanMatch(html, j, m')
  {
    if html == [] then (None, None)
    else
      var percentage := match FindProgress(html, 0)
        case Some((_, d)) => Some(DecimalValue(d))
        case None => None;
      var message := match FindSpan(html, 0)
        case Some((_, m)) => Some(m)
        case None => None;
      (percentage, message)
  }
}
