/** `rex_task.search(message)` for the default `--task` pattern
    `[A-Z]{1,8}\-?[0-9]{1,8}`, followed by `.group(0)`.

    Python's engine tries the starts of the message from left to right and,
    at each start, the greedy choices first, backtracking on failure. Upper
    case letters, the dash and digits are disjoint classes, so at a start the
    letters taken are always the whole run of letters there, and the greedy
    choice of dash and digits gives the longest match at that start. */
module TaskPattern {
  import opened Wrappers
  import opened Text

  predicate IsUpper(c: char) {
    'A' <= c <= 'Z'
  }

  /** The two character classes of the pattern. */
  datatype Class = Upper | Digit

  predicate InClass(c: char, k: Class) {
    match k
    case Upper => IsUpper(c)
    case Digit => IsDigit(c)
  }

  /** The number of consecutive characters of class `p` from `i` on. */
  function Run(s: string, i: nat, p: Class): (n: nat)
    requires i <= |s|
    ensures i + n <= |s|
    decreases |s| - i
  {
    if i < |s| && InClass(s[i], p) then 1 + Run(s, i + 1, p) else 0
  }

  function Min(a: nat, b: nat): nat {
    if a <= b then a else b
  }

  // The pattern itself, one part at a time.

  predicate AllUpper(t: string) {
    forall k :: 0 <= k < |t| ==> IsUpper(t[k])
  }

  /** `[0-9]{1,8}` matches all of `r`. */
  predicate DigitBlock(r: string) {
    1 <= |r| <= 8 && AllDigits(r)
  }

  /** `\-?[0-9]{1,8}` matches all of `r`. */
  predicate DashDigits(r: string) {
    DigitBlock(r) || (|r| > 0 && r[0] == '-' && DigitBlock(r[1..]))
  }

  /** The first `n` characters of `t` are the `[A-Z]{1,8}` part of a match of
      the whole of `t`. */
  predicate MatchesWithLetters(t: string, n: nat) {
    1 <= n <= 8 && n <= |t| && AllUpper(t[..n]) && DashDigits(t[n..])
  }

  /** `[A-Z]{1,8}\-?[0-9]{1,8}` matches all of `t`. */
  predicate Matches(t: string) {
    exists n: nat :: 1 <= n <= 8 && MatchesWithLetters(t, n)
  }

  // The engine.

  /** The end of the `\-?[0-9]{1,8}` part when it starts at `j`: the dash is
      taken when digits follow it, and then as many digits as allowed. */
  function Tail(s: string, j: nat): (e: Option<nat>)
    requires j <= |s|
    ensures e.Some? ==> j < e.value <= |s|
  {
    if j < |s| && s[j] == '-' && Run(s, j + 1, Digit) >= 1 then
      Some(j + 1 + Min(Run(s, j + 1, Digit), 8))
    else if Run(s, j, Digit) >= 1 then
      Some(j + Min(Run(s, j, Digit), 8))
    else None
  }

  /** The end of the match found at start `i`, if there is one. */
  function MatchAt(s: string, i: nat): (e: Option<nat>)
    requires i <= |s|
    ensures e.Some? ==> i < e.value <= |s|
  {
    var n := Run(s, i, Upper);
    if n < 1 || n > 8 then None else Tail(s, i + n)
  }

  /** The span of the leftmost match starting at `i` or later. */
  function SearchFrom(s: string, i: nat): (r: Option<(nat, nat)>)
    requires i <= |s|
    ensures r.Some? ==> i <= r.value.0 < r.value.1 <= |s|
    decreases |s| - i
  {
    match MatchAt(s, i)
    case Some(e) => Some((i, e))
    case None => if i == |s| then None else SearchFrom(s, i + 1)
  }

  /** `rex_task.search(message)` and, on a match, `match.group(0)`. */
  function DefaultTask(message: string): Option<string> {
    match SearchFrom(message, 0)
    case None => None
    case Some(span) => Some(message[span.0..span.1])
  }

  // Runs.

  lemma {:induction false} RunFacts(s: string, i: nat, p: Class)
    requires i <= |s|
    ensures forall m :: i <= m < i + Run(s, i, p) ==> InClass(s[m], p)
    ensures i + Run(s, i, p) < |s| ==> !InClass(s[i + Run(s, i, p)], p)
    decreases |s| - i
  {
    if i < |s| && InClass(s[i], p) {
      RunFacts(s, i + 1, p);
    }
  }

  lemma {:induction false} RunCovers(s: string, i: nat, p: Class, k: nat)
    requires i + k <= |s|
    requires forall m :: i <= m < i + k ==> InClass(s[m], p)
    ensures Run(s, i, p) >= k
    decreases k
  {
    if k > 0 {
      RunCovers(s, i + 1, p, k - 1);
    }
  }

  // What the engine finds.

  /** A run of letters followed by an optional dash and digits is a match. */
  lemma Compose(s: string, i: nat, j: nat, e: nat)
    requires i <= j <= e <= |s| && 1 <= j - i <= 8
    requires AllUpper(s[i..j]) && DashDigits(s[j..e])
    ensures Matches(s[i..e])
  {
    var t := s[i..e];
    assert t[..j - i] == s[i..j];
    assert t[j - i..] == s[j..e];
    assert MatchesWithLetters(t, j - i);
  }

  /** A run of letters, taken as a string, is all upper case. */
  lemma RunUpper(s: string, a: nat, b: nat)
    requires a <= b <= |s| && b - a <= Run(s, a, Upper)
    ensures AllUpper(s[a..b])
  {
    RunFacts(s, a, Upper);
    forall m | 0 <= m < b - a
      ensures IsUpper(s[a..b][m])
    {
      assert s[a..b][m] == s[a + m];
      assert InClass(s[a + m], Upper);
    }
  }

  /** One to eight characters of a run of digits form a digit block. */
  lemma RunDigits(s: string, a: nat, b: nat)
    requires a < b <= |s| && b - a <= 8 && b - a <= Run(s, a, Digit)
    ensures DigitBlock(s[a..b])
  {
    RunFacts(s, a, Digit);
    forall m | 0 <= m < b - a
      ensures IsDigit(s[a..b][m])
    {
      assert s[a..b][m] == s[a + m];
      assert InClass(s[a + m], Digit);
    }
  }

  /** What `MatchAt` finds is a match. */
  lemma MatchAtSound(s: string, i: nat)
    requires i <= |s| && MatchAt(s, i).Some?
    ensures Matches(s[i..MatchAt(s, i).value])
  {
    var e := MatchAt(s, i).value;
    var j := i + Run(s, i, Upper);
    RunUpper(s, i, j);
    if j < |s| && s[j] == '-' && Run(s, j + 1, Digit) >= 1 {
      RunDigits(s, j + 1, e);
      assert s[j..e][1..] == s[j + 1..e];
    } else {
      RunDigits(s, j, e);
    }
    Compose(s, i, j, e);
  }

  /** The characters of a digit block are a run of digits. */
  lemma DigitsRun(s: string, a: nat, b: nat)
    requires a <= b <= |s| && DigitBlock(s[a..b])
    ensures Run(s, a, Digit) >= b - a
  {
    forall m | a <= m < b
      ensures InClass(s[m], Digit)
    {
      assert s[m] == s[a..b][m - a];
    }
    RunCovers(s, a, Digit, b - a);
  }

  /** Every `\-?[0-9]{1,8}` part at `j` ends no later than `Tail` says. */
  lemma TailLongest(s: string, j: nat, e: nat)
    requires j <= e <= |s| && DashDigits(s[j..e])
    ensures Tail(s, j).Some? && e <= Tail(s, j).value
  {
    if DigitBlock(s[j..e]) {
      DigitsRun(s, j, e);
      assert s[j] == s[j..e][0];
    } else {
      assert s[j + 1..e] == s[j..e][1..];
      DigitsRun(s, j + 1, e);
    }
  }

  /** A match at `i` takes exactly the run of letters there. */
  lemma LettersRun(s: string, i: nat, e: nat, n: nat)
    requires i <= e <= |s| && MatchesWithLetters(s[i..e], n)
    ensures Run(s, i, Upper) == n && DashDigits(s[i + n..e])
  {
    var t := s[i..e];
    var j := i + n;
    forall m | i <= m < j
      ensures InClass(s[m], Upper)
    {
      assert s[m] == t[..n][m - i];
    }
    RunCovers(s, i, Upper, n);
    RunFacts(s, i, Upper);
    assert t[n..] == s[j..e];
    assert s[j] == t[n..][0];
  }

  /** Every match at start `i` ends no later than what `MatchAt` finds. */
  lemma MatchAtLongest(s: string, i: nat, e: nat)
    requires i <= e <= |s| && Matches(s[i..e])
    ensures MatchAt(s, i).Some? && e <= MatchAt(s, i).value
  {
    var n: nat :| 1 <= n <= 8 && MatchesWithLetters(s[i..e], n);
    LettersRun(s, i, e, n);
    TailLongest(s, i + n, e);
  }

  /** `SearchFrom` returns the leftmost match, and the longest one at its
      start; it returns nothing when no substring from `i` on matches. */
  lemma {:induction false} SearchFromFacts(s: string, i: nat)
    requires i <= |s|
    ensures SearchFrom(s, i).Some? ==>
              var (b, e) := SearchFrom(s, i).value;
              Matches(s[b..e]) &&
              (forall e' :: e < e' <= |s| ==> !Matches(s[b..e'])) &&
              (forall b', e' :: i <= b' < b && b' <= e' <= |s| ==> !Matches(s[b'..e']))
    ensures SearchFrom(s, i).None? ==>
              forall b', e' :: i <= b' <= e' <= |s| ==> !Matches(s[b'..e'])
    decreases |s| - i
  {
    forall e' | i <= e' <= |s| && Matches(s[i..e'])
      ensures MatchAt(s, i).Some? && e' <= MatchAt(s, i).value
    {
      MatchAtLongest(s, i, e');
    }
    match MatchAt(s, i)
    case Some(e) =>
      MatchAtSound(s, i);
    case None =>
      if i < |s| {
        SearchFromFacts(s, i + 1);
      }
  }

  /** The task `DefaultTask` returns is the leftmost match in the message,
      the longest at its start, and there is none when nothing matches. */
  lemma DefaultTaskFacts(message: string)
    ensures DefaultTask(message).Some? ==>
              exists b, e :: 0 <= b <= e <= |message| &&
                DefaultTask(message).value == message[b..e] && Matches(message[b..e]) &&
                (forall e' :: e < e' <= |message| ==> !Matches(message[b..e'])) &&
                (forall b', e' :: 0 <= b' < b && b' <= e' <= |message| ==> !Matches(message[b'..e']))
    ensures DefaultTask(message).None? ==>
              forall b', e' :: 0 <= b' <= e' <= |message| ==> !Matches(message[b'..e'])
  {
    SearchFromFacts(message, 0);
  }
}
