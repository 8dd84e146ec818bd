/**
 * Task-id extraction from the HTML body of an Asana notification.
 *
 * The command runs `preg_match` with the pattern  taskId': '(?<digit>\d+)
 * (no flags) and reads the named group `digit`. The pattern is a fixed
 * literal followed by a greedy run of ASCII digits, so a match starts at
 * position i exactly when the literal occurs at i and a digit follows it;
 * `preg_match` reports the leftmost such position, and the greedy `\d+`
 * captures every digit after the literal up to the first non-digit.
 * Each `char` of a body stands for one byte of the PHP string.
 */
module TaskIdExtraction {
  import opened Wrappers

  /** The literal that precedes the task id. */
  const Marker: string := "taskId': '"

  /** `\d` without the `u` modifier: the ASCII digits only. */
  predicate IsDigit(c: char)
  {
    '0' <= c <= '9'
  }

  predicate AllDigits(s: string)
  {
    forall k :: 0 <= k < |s| ==> IsDigit(s[k])
  }

  /** The pattern matches at position i: the literal starts at i and a digit follows it. */
  predicate MatchesAt(body: string, i: int)
  {
    0 <= i && i + |Marker| < |body| && body[i..i + |Marker|] == Marker && IsDigit(body[i + |Marker|])
  }

  /** The pattern matches nowhere in body. */
  predicate NoMatch(body: string)
  {
    forall k :: 0 <= k < |body| ==> !MatchesAt(body, k)
  }

  /** p is the position `preg_match` reports: a match, and no match starts before it. */
  predicate IsLeftmostMatch(body: string, p: int)
  {
    MatchesAt(body, p) && forall k :: 0 <= k < p ==> !MatchesAt(body, k)
  }

  /** id is the maximal (greedy) run of digits that starts at position start of body. */
  predicate IsDigitRunAt(body: string, start: nat, id: string)
  {
    && id != []
    && start + |id| <= |body|
    && body[start..start + |id|] == id
    && AllDigits(id)
    && (start + |id| == |body| || !IsDigit(body[start + |id|]))
  }

  /** What the named group `digit` holds after a successful `preg_match`. */
  ghost predicate Captures(body: string, id: string)
  {
    exists p: nat :: IsLeftmostMatch(body, p) && IsDigitRunAt(body, p + |Marker|, id)
  }

  /** The number of consecutive digits in body from position i on. */
  function DigitRun(body: string, i: nat): (n: nat)
    requires i <= |body|
    ensures i + n <= |body|
    ensures forall k :: i <= k < i + n ==> IsDigit(body[k])
    ensures i + n == |body| || !IsDigit(body[i + n])
    decreases |body| - i
  {
    if i < |body| && IsDigit(body[i]) then 1 + DigitRun(body, i + 1) else 0
  }

  /** The leftmost position at or after `from` where the pattern matches. */
  function FindMatch(body: string, from: nat): (r: Option<nat>)
    ensures r.Some? ==> from <= r.value && MatchesAt(body, r.value)
    ensures r.None? ==> forall k :: from <= k ==> !MatchesAt(body, k)
    ensures r.Some? ==> forall k :: from <= k < r.value ==> !MatchesAt(body, k)
    decreases |body| - from
  {
    if from + |Marker| >= |body| then None
    else if MatchesAt(body, from) then Some(from)
    else FindMatch(body, from + 1)
  }

  /**
   * The task id of a mail body: None when `preg_match` returns 0, otherwise
   * the digits captured by the group `digit`.
   */
  function ExtractTaskId(body: string): (r: Option<string>)
    ensures r.None? <==> NoMatch(body)
    ensures r.Some? ==> r.value != [] && AllDigits(r.value)
  {
    match FindMatch(body, 0)
    case None => None
    case Some(p) =>
      var start := p + |Marker|;
      Some(body[start..start + DigitRun(body, start)])
  }

  /**
   * The extracted id is what the group `digit` captures: the maximal digit
   * run after the leftmost match.
   */
  lemma ExtractTaskIdCaptures(body: string)
    requires ExtractTaskId(body).Some?
    ensures Captures(body, ExtractTaskId(body).value)
  {
    var p := FindMatch(body, 0).value;
    var start := p + |Marker|;
    assert IsLeftmostMatch(body, p);
    assert IsDigitRunAt(body, start, ExtractTaskId(body).value);
  }

  /** A maximal digit run is determined by its start: it is the one DigitRun measures. */
  lemma {:induction false} DigitRunUnique(body: string, start: nat, id: string)
    requires IsDigitRunAt(body, start, id)
    ensures DigitRun(body, start) == |id|
    decreases |id|
  {
    assert body[start] == id[0];
    if |id| > 1 {
      var rest := id[1..];
      assert body[start + 1..start + 1 + |rest|] == rest;
      DigitRunUnique(body, start + 1, rest);
    } else {
      assert start + 1 == |body| || !IsDigit(body[start + 1]);
    }
  }

  /** The leftmost match is the position FindMatch reports. */
  lemma LeftmostMatchIsFound(body: string, p: nat)
    requires IsLeftmostMatch(body, p)
    ensures FindMatch(body, 0) == Some(p)
  {
    var q := FindMatch(body, 0);
    assert q.Some? ==> q.value == p;
  }

  /**
   * The capture is uniquely determined: whatever id satisfies the regular-expression
   * semantics is the one ExtractTaskId returns.
   */
  lemma CapturesDeterminesExtraction(body: string, id: string)
    requires Captures(body, id)
    ensures ExtractTaskId(body) == Some(id)
  {
    var p: nat :| IsLeftmostMatch(body, p) && IsDigitRunAt(body, p + |Marker|, id);
    CaptureAtDeterminesExtraction(body, p, id);
  }

  lemma CaptureAtDeterminesExtraction(body: string, p: nat, id: string)
    requires IsLeftmostMatch(body, p) && IsDigitRunAt(body, p + |Marker|, id)
    ensures ExtractTaskId(body) == Some(id)
  {
    LeftmostMatchIsFound(body, p);
    DigitRunUnique(body, p + |Marker|, id);
  }

  /**
   * Inverse of rendering: a body made of text without a single quote, the
   * literal, a digit run and text that does not start with a digit yields
   * exactly that digit run.
   */
  lemma ExtractEmbedded(prefix: string, id: string, suffix: string)
    requires '\'' !in prefix
    requires id != [] && AllDigits(id)
    requires suffix == [] || !IsDigit(suffix[0])
    ensures ExtractTaskId(prefix + Marker + id + suffix) == Some(id)
  {
    var body := prefix + Marker + id + suffix;
    var p := |prefix|;
    assert body[p..p + |Marker|] == Marker;
    assert body[p + |Marker|] == id[0];
    assert MatchesAt(body, p);
    forall k | 0 <= k < p
      ensures !MatchesAt(body, k)
    {
      // the seventh character of a match is a quote, which neither the prefix nor
      // the first six characters of the literal contain
      assert body[k + 6] == if k + 6 < p then prefix[k + 6] else Marker[k + 6 - p];
    }
    assert IsLeftmostMatch(body, p);
    var start := p + |Marker|;
    assert body[start..start + |id|] == id;
    if start + |id| < |body| {
      assert body[start + |id|] == suffix[0];
    }
    assert IsDigitRunAt(body, start, id);
    CapturesDeterminesExtraction(body, id);
  }
}
