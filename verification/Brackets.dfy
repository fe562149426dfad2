/** What it means for two brackets to match in a text, and the two scans that look for it. */
module Brackets {
  import opened Options

  const STEPS := 100000

  predicate IsOpen(c: char) { c == '(' || c == '[' || c == '{' }

  predicate IsClose(c: char) { c == ')' || c == ']' || c == '}' }

  /** The closing bracket of an opening one, and the other way round. */
  function Partner(c: char): char
    requires IsOpen(c) || IsClose(c)
  {
    match c
    case '(' => ')'
    case '[' => ']'
    case '{' => '}'
    case ')' => '('
    case ']' => '['
    case _ => '{'
  }

  function Weight(c: char, open: char): int
    requires IsOpen(open)
  {
    if c == open then 1 else if c == Partner(open) then -1 else 0
  }

  /** Opening minus closing brackets of one kind in text[lo..hi]. */
  function Balance(text: string, lo: int, hi: int, open: char): int
    requires 0 <= lo <= hi <= |text| && IsOpen(open)
    decreases hi - lo
  {
    if lo == hi then 0 else Balance(text, lo, hi - 1, open) + Weight(text[hi - 1], open)
  }

  /** No prefix of text[lo..hi] closes more than it opens, and the whole closes all. */
  predicate Balanced(text: string, lo: int, hi: int, open: char)
    requires 0 <= lo <= hi <= |text| && IsOpen(open)
  {
    Balance(text, lo, hi, open) == 0 && forall r :: lo <= r <= hi ==> Balance(text, lo, r, open) >= 0
  }

  /** An opening bracket at p, its own kind's closing one at q, balanced text between them. */
  predicate Pair(text: string, p: int, q: int) {
    && 0 <= p < q < |text| && IsOpen(text[p]) && text[q] == Partner(text[p])
    && Balanced(text, p + 1, q, text[p])
  }

  // ---------------------------------------------------------------- the scans

  /** The loop of match_bracket towards the end of the text. */
  function Forward(text: string, i: int, open: char, depth: nat, steps: nat): Option<int>
    requires 0 <= i <= |text| && IsOpen(open)
    decreases steps
  {
    if steps == 0 || i == |text| then None
    else if text[i] == open then Forward(text, i + 1, open, depth + 1, steps - 1)
    else if text[i] == Partner(open) then
      if depth == 0 then Some(i) else Forward(text, i + 1, open, depth - 1, steps - 1)
    else Forward(text, i + 1, open, depth, steps - 1)
  }

  /** The same loop towards the start. */
  function Backward(text: string, i: int, open: char, depth: nat, steps: nat): Option<int>
    requires -1 <= i < |text| && IsOpen(open)
    decreases steps
  {
    if steps == 0 || i == -1 then None
    else if text[i] == Partner(open) then Backward(text, i - 1, open, depth + 1, steps - 1)
    else if text[i] == open then
      if depth == 0 then Some(i) else Backward(text, i - 1, open, depth - 1, steps - 1)
    else Backward(text, i - 1, open, depth, steps - 1)
  }

  /** Where the scan from the bracket at p ends. */
  function Match(text: string, p: int): Option<int>
    requires 0 <= p < |text| && (IsOpen(text[p]) || IsClose(text[p]))
  {
    if IsOpen(text[p]) then Forward(text, p + 1, text[p], 0, STEPS)
    else Backward(text, p - 1, Partner(text[p]), 0, STEPS)
  }

  // ---------------------------------------------------------------- what they find

  lemma {:induction false} BalanceFirst(text: string, lo: int, hi: int, open: char)
    requires 0 <= lo < hi <= |text| && IsOpen(open)
    ensures Balance(text, lo, hi, open) == Weight(text[lo], open) + Balance(text, lo + 1, hi, open)
    decreases hi - lo
  {
    if lo + 1 < hi {
      BalanceFirst(text, lo, hi - 1, open);
    }
  }

  lemma {:induction false} BalanceSplits(text: string, lo: int, mid: int, hi: int, open: char)
    requires 0 <= lo <= mid <= hi <= |text| && IsOpen(open)
    ensures Balance(text, lo, hi, open) == Balance(text, lo, mid, open) + Balance(text, mid, hi, open)
    decreases hi - lo
  {
    if mid < hi {
      BalanceSplits(text, lo, mid, hi - 1, open);
    }
  }

  /** The depth never falls below zero on the way from i to q, and is zero there. */
  predicate ReachesForward(text: string, i: int, open: char, depth: int, q: int)
    requires 0 <= i <= |text| && IsOpen(open)
  {
    && i <= q < |text| && text[q] == Partner(open)
    && depth + Balance(text, i, q, open) == 0
    && forall r :: i <= r <= q ==> depth + Balance(text, i, r, open) >= 0
  }

  lemma {:induction false} ForwardIff(text: string, i: int, open: char, depth: nat, steps: nat, q: int)
    requires 0 <= i <= |text| && IsOpen(open)
    ensures Forward(text, i, open, depth, steps) == Some(q)
            <==> ReachesForward(text, i, open, depth, q) && q - i < steps
    decreases steps
  {
    if steps > 0 && i < |text| {
      var next := depth + Weight(text[i], open);
      if next < 0 {
        if i < q < |text| { BalanceFirst(text, i, i + 1, open); }
      } else {
        ForwardIff(text, i + 1, open, next, steps - 1, q);
        ForwardStep(text, i, open, depth, q);
      }
    }
  }

  lemma ForwardStep(text: string, i: int, open: char, depth: nat, q: int)
    requires 0 <= i < |text| && IsOpen(open) && depth + Weight(text[i], open) >= 0
    ensures ReachesForward(text, i, open, depth, q)
            <==> ReachesForward(text, i + 1, open, depth + Weight(text[i], open), q)
  {
    var next := depth + Weight(text[i], open);
    forall r | i < r <= |text|
      ensures depth + Balance(text, i, r, open) == next + Balance(text, i + 1, r, open)
    {
      BalanceFirst(text, i, r, open);
    }
    if ReachesForward(text, i, open, depth, q) && q > i {
      var from := i + 1;
      forall r | from <= r <= q
        ensures next + Balance(text, from, r, open) >= 0
      {
        assert depth + Balance(text, i, r, open) >= 0;
      }
    }
    if ReachesForward(text, i + 1, open, next, q) {
      forall r | i <= r <= q
        ensures depth + Balance(text, i, r, open) >= 0
      {
        if r > i { assert next + Balance(text, i + 1, r, open) >= 0; }
      }
    }
  }

  /** The same towards the start, from the character before `end`. */
  predicate ReachesBackward(text: string, end: int, open: char, depth: int, p: int)
    requires 0 <= end <= |text| && IsOpen(open)
  {
    && 0 <= p < end && text[p] == open
    && depth - Balance(text, p + 1, end, open) == 0
    && forall r :: p < r <= end ==> depth - Balance(text, r, end, open) >= 0
  }

  lemma {:induction false} BackwardIff(text: string, end: int, open: char, depth: nat, steps: nat, p: int)
    requires 0 <= end <= |text| && IsOpen(open)
    ensures Backward(text, end - 1, open, depth, steps) == Some(p)
            <==> ReachesBackward(text, end, open, depth, p) && end - p <= steps
    decreases steps
  {
    if steps > 0 && end > 0 {
      var next := depth - Weight(text[end - 1], open);
      if next < 0 {
        if 0 <= p < end - 1 {
          assert Balance(text, end - 1, end, open)
              == Weight(text[end - 1], open) + Balance(text, end - 1, end - 1, open);
        }
      } else {
        BackwardIff(text, end - 1, open, next, steps - 1, p);
        BackwardStep(text, end, open, depth, p);
      }
    }
  }

  lemma BackwardStep(text: string, end: int, open: char, depth: nat, p: int)
    requires 0 < end <= |text| && IsOpen(open) && depth - Weight(text[end - 1], open) >= 0
    ensures p < end - 1 ==>
              (ReachesBackward(text, end, open, depth, p)
               <==> ReachesBackward(text, end - 1, open, depth - Weight(text[end - 1], open), p))
  {
    var next := depth - Weight(text[end - 1], open);
    if ReachesBackward(text, end, open, depth, p) && p < end - 1 {
      var to := end - 1;
      forall r | p < r <= to
        ensures next - Balance(text, r, to, open) >= 0
      {
        assert depth - Balance(text, r, end, open) >= 0;
      }
    }
    if ReachesBackward(text, end - 1, open, next, p) {
      forall r | p < r <= end
        ensures depth - Balance(text, r, end, open) >= 0
      {
        if r < end { assert next - Balance(text, r, end - 1, open) >= 0; }
      }
    }
  }

  /** Seen from its far end, a balanced text never opens more than it closes. */
  lemma BalancedBackwards(text: string, p: int, q: int)
    requires 0 <= p < q < |text| && IsOpen(text[p])
    ensures Balanced(text, p + 1, q, text[p]) <==> ReachesBackward(text, q, text[p], 0, p)
  {
    var open := text[p];
    forall r | p < r <= q
      ensures Balance(text, r, q, open) == Balance(text, p + 1, q, open) - Balance(text, p + 1, r, open)
    {
      BalanceSplits(text, p + 1, r, q, open);
    }
    if Balanced(text, p + 1, q, open) {
      forall r | p < r <= q
        ensures 0 - Balance(text, r, q, open) >= 0
      {
        assert Balance(text, p + 1, r, open) >= 0;
      }
    }
    if ReachesBackward(text, q, open, 0, p) {
      var from := p + 1;
      forall r | from <= r <= q
        ensures Balance(text, from, r, open) >= 0
      {
        assert 0 - Balance(text, r, q, open) >= 0;
      }
    }
  }

  /** The scan from an opening bracket ends exactly at the other end of its pair, if that is
      within the step limit; so does the scan from a closing bracket. */
  lemma MatchIsPair(text: string, p: int, q: int)
    requires 0 <= p < |text| && (IsOpen(text[p]) || IsClose(text[p]))
    ensures IsOpen(text[p]) ==> (Match(text, p) == Some(q) <==> Pair(text, p, q) && q - p <= STEPS)
    ensures IsClose(text[p]) ==> (Match(text, p) == Some(q) <==> Pair(text, q, p) && p - q <= STEPS)
  {
    if IsOpen(text[p]) {
      ForwardIff(text, p + 1, text[p], 0, STEPS, q);
    } else {
      var open := Partner(text[p]);
      BackwardIff(text, p, open, 0, STEPS, q);
      if 0 <= q < p && text[q] == open {
        BalancedBackwards(text, q, p);
      }
    }
  }

  /** Matching twice returns to the start. */
  lemma MatchIsAnInvolution(text: string, p: int, q: int)
    requires 0 <= p < |text| && (IsOpen(text[p]) || IsClose(text[p]))
    requires Match(text, p) == Some(q)
    ensures 0 <= q < |text| && (IsOpen(text[q]) || IsClose(text[q]))
    ensures Match(text, q) == Some(p)
  {
    MatchIsPair(text, p, q);
    MatchIsPair(text, q, p);
  }

  // ---------------------------------------------------------------- the brackets themselves

  /** Of one character more than of another, in text[lo..hi]. */
  function Excess(text: string, lo: int, hi: int, opener: char, closer: char): int
    requires 0 <= lo <= hi <= |text|
    decreases hi - lo
  {
    if lo == hi then 0
    else Excess(text, lo, hi - 1, opener, closer)
         + (if text[hi - 1] == opener then 1 else 0) - (if text[hi - 1] == closer then 1 else 0)
  }

  predicate Even(text: string, lo: int, hi: int, opener: char, closer: char)
    requires 0 <= lo <= hi <= |text|
  {
    Excess(text, lo, hi, opener, closer) == 0 && forall r :: lo <= r <= hi ==> Excess(text, lo, r, opener, closer) >= 0
  }

  /** Round, square or curly brackets at a and b; between them as many of these two characters, and
      on the way never more closing than opening ones. */
  predicate Matched(text: string, a: int, b: int) {
    && 0 <= a < b < |text|
    && (text[a], text[b]) in {('(', ')'), ('[', ']'), ('{', '}')}
    && Even(text, a + 1, b, text[a], text[b])
  }

  lemma {:induction false} ExcessIsBalance(text: string, lo: int, hi: int, open: char, close: char)
    requires 0 <= lo <= hi <= |text| && (open, close) in {('(', ')'), ('[', ']'), ('{', '}')}
    ensures IsOpen(open) && Excess(text, lo, hi, open, close) == Balance(text, lo, hi, open)
    decreases hi - lo
  {
    if lo < hi { ExcessIsBalance(text, lo, hi - 1, open, close); }
  }

  lemma EvenIsBalanced(text: string, lo: int, hi: int, open: char, close: char)
    requires 0 <= lo <= hi <= |text| && (open, close) in {('(', ')'), ('[', ']'), ('{', '}')}
    ensures IsOpen(open) && close == Partner(open)
            && (Even(text, lo, hi, open, close) <==> Balanced(text, lo, hi, open))
  {
    forall r | lo <= r <= hi
      ensures IsOpen(open) && Excess(text, lo, r, open, close) == Balance(text, lo, r, open)
    {
      ExcessIsBalance(text, lo, r, open, close);
    }
  }

  lemma MatchedIsPair(text: string, a: int, b: int)
    ensures Matched(text, a, b) <==> Pair(text, a, b)
  {
    if 0 <= a < b < |text| && (text[a], text[b]) in {('(', ')'), ('[', ']'), ('{', '}')} {
      EvenIsBalanced(text, a + 1, b, text[a], text[b]);
    }
  }

  /** From any of the six brackets: the scan finds the other one of its own kind, with as many of
      both between, at most 100000 characters away. */
  lemma MatchInWords(text: string, p: int, q: int)
    requires 0 <= p < |text| && text[p] in "([{)]}"
    ensures Match(text, p) == Some(q)
            <==> (Matched(text, p, q) && q - p <= 100000) || (Matched(text, q, p) && p - q <= 100000)
  {
    MatchIsPair(text, p, q);
    MatchedIsPair(text, p, q);
    MatchedIsPair(text, q, p);
  }
}
