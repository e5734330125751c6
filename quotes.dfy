/** The quoted-text candidate: `find`/`rfind`, `expand_within_quotes`,
    `get_quoted_selection` and the last-path-segment split applied to it in `run`. */
module Quotes {

  /** Python's `s.rfind(c, 0, stop)`: the last index below `stop` holding `c`, or -1. */
  function RFind(s: string, c: char, stop: nat): (i: int)
    ensures -1 <= i < |s| && i < stop
    ensures i >= 0 ==> s[i] == c
    ensures forall k :: i < k < stop && k < |s| ==> s[k] != c
    decreases stop
  {
    if stop == 0 then -1
    else if stop > |s| then RFind(s, c, |s|)
    else if s[stop - 1] == c then stop - 1
    else RFind(s, c, stop - 1)
  }

  /** Python's `s.find(c, start)`: the first index at or after `start` holding `c`, or -1. */
  function Find(s: string, c: char, start: nat): (i: int)
    ensures i == -1 || (start <= i < |s| && s[i] == c)
    ensures forall k :: start <= k < |s| && (i == -1 || k < i) ==> s[k] != c
    decreases |s| - start
  {
    if start >= |s| then -1
    else if s[start] == c then start
    else Find(s, c, start + 1)
  }

  /** Quotes `q` at `o` and `cl` bracket column `position`: `o` is the last quote
      before the column, `cl` the first one at or after it. */
  predicate Brackets(text: string, position: nat, q: char, o: int, cl: int)
  {
    0 <= o < position <= cl < |text| && text[o] == q && text[cl] == q &&
    forall k :: o < k < cl ==> text[k] != q
  }

  /** `expand_within_quotes(text, position, q)`, as written: the `open_quote > 0` test
      means a quote in column 0 never opens a quoted span. */
  function ExpandWithinQuotes(text: string, position: nat, q: char): string
  {
    var o := RFind(text, q, position);
    var cl := Find(text, q, position);
    if o > 0 && cl > 0 then text[o + 1..cl] else []
  }

  /** The text returned lies between the bracketing pair of quotes whenever the
      opening one is past column 0, and is empty otherwise; it holds no quote. */
  lemma {:induction false} ExpandWithinQuotesSpan(text: string, position: nat, q: char)
    ensures var r := ExpandWithinQuotes(text, position, q);
            (forall o, cl :: Brackets(text, position, q, o, cl) && o > 0 ==> r == text[o + 1..cl]) &&
            (r != [] ==> exists o, cl :: Brackets(text, position, q, o, cl) && o > 0 && r == text[o + 1..cl]) &&
            q !in r
  {
    var o, cl := RFind(text, q, position), Find(text, q, position);
    BracketsFound(text, position, q);
    if o > 0 && cl > 0 {
      SpanBetween(text, position, q, o, cl);
    }
  }

  /** The same with `open_quote >= 0`: any bracketing pair of quotes counts. */
  function ExpandWithinQuotesFixed(text: string, position: nat, q: char): string
  {
    var o := RFind(text, q, position);
    var cl := Find(text, q, position);
    if o >= 0 && cl >= 0 then text[o + 1..cl] else []
  }

  /** With the corrected test, the text returned is exactly what lies between the
      bracketing pair, and is empty only when there is no such pair or nothing between. */
  lemma {:induction false} ExpandWithinQuotesFixedSpan(text: string, position: nat, q: char)
    ensures var r := ExpandWithinQuotesFixed(text, position, q);
            (forall o, cl :: Brackets(text, position, q, o, cl) ==> r == text[o + 1..cl]) &&
            (r != [] ==> exists o, cl :: Brackets(text, position, q, o, cl) && r == text[o + 1..cl]) &&
            q !in r
  {
    var o, cl := RFind(text, q, position), Find(text, q, position);
    BracketsFound(text, position, q);
    if o >= 0 && cl >= 0 {
      SpanBetween(text, position, q, o, cl);
    }
  }

  /** What lies between a bracketing pair holds no quote of that kind. */
  lemma SpanBetween(text: string, position: nat, q: char, o: int, cl: int)
    requires Brackets(text, position, q, o, cl)
    ensures q !in text[o + 1..cl]
  {
  }

  /** `rfind` and `find` locate exactly the bracketing pair, when there is one. */
  lemma {:induction false} BracketsFound(text: string, position: nat, q: char)
    ensures var o, cl := RFind(text, q, position), Find(text, q, position);
            (o >= 0 && cl >= 0 ==> Brackets(text, position, q, o, cl)) &&
            forall o', cl' :: Brackets(text, position, q, o', cl') ==> o' == o && cl' == cl
  {
    var o, cl := RFind(text, q, position), Find(text, q, position);
    forall o', cl' | Brackets(text, position, q, o', cl')
      ensures o' == o && cl' == cl
    {
      if cl == -1 || cl' < cl { assert text[cl'] == q; }
    }
  }

  /** A name quoted from column 0 of its line is missed by the code as written,
      though the corrected test finds it. */
  lemma {:induction false} QuoteAtLineStartMissed()
    ensures Brackets("\"a\"", 1, '"', 0, 2)
    ensures ExpandWithinQuotes("\"a\"", 1, '"') == []
    ensures ExpandWithinQuotesFixed("\"a\"", 1, '"') == "a"
  {
    var t := "\"a\"";
    assert RFind(t, '"', 1) == 0;
  }

  /** `get_quoted_selection`: the double-quoted span around the column, and only when
      that is empty the single-quoted one. */
  function QuotedSelection(line: string, position: nat): string
  {
    var d := ExpandWithinQuotes(line, position, '"');
    if d != [] then d else ExpandWithinQuotes(line, position, '\'')
  }

  /** A non-empty double-quoted span around the column, opened past column 0, is chosen;
      single quotes are consulted only when the double-quote result is empty; whatever
      is chosen lies between bracketing quotes of one kind, opened past column 0. */
  lemma {:induction false} QuotedSelectionChoice(line: string, position: nat)
    ensures var r := QuotedSelection(line, position);
            (forall o, cl :: Brackets(line, position, '"', o, cl) && o > 0 && o + 1 < cl ==> r == line[o + 1..cl]) &&
            (ExpandWithinQuotes(line, position, '"') == [] ==>
               forall o, cl :: Brackets(line, position, '\'', o, cl) && o > 0 ==> r == line[o + 1..cl]) &&
            (r != [] ==> exists q, o, cl :: (q == '"' || q == '\'') && Brackets(line, position, q, o, cl) && o > 0 && r == line[o + 1..cl])
  {
    ExpandWithinQuotesSpan(line, position, '"');
    ExpandWithinQuotesSpan(line, position, '\'');
  }

  /** `get_quoted_selection` over the corrected quote test. */
  function QuotedSelectionFixed(line: string, position: nat): string
  {
    var d := ExpandWithinQuotesFixed(line, position, '"');
    if d != [] then d else ExpandWithinQuotesFixed(line, position, '\'')
  }

  /** With the corrected test the choice is the same, for any bracketing pair. */
  lemma {:induction false} QuotedSelectionFixedChoice(line: string, position: nat)
    ensures var r := QuotedSelectionFixed(line, position);
            (forall o, cl :: Brackets(line, position, '"', o, cl) && o + 1 < cl ==> r == line[o + 1..cl]) &&
            (ExpandWithinQuotesFixed(line, position, '"') == [] ==>
               forall o, cl :: Brackets(line, position, '\'', o, cl) ==> r == line[o + 1..cl]) &&
            (r != [] ==> exists q, o, cl :: (q == '"' || q == '\'') && Brackets(line, position, q, o, cl) && r == line[o + 1..cl])
  {
    ExpandWithinQuotesFixedSpan(line, position, '"');
    ExpandWithinQuotesFixedSpan(line, position, '\'');
  }

  /** `s.split('/')[-1]`: what follows the last separator, or all of `s` if it has none. */
  function LastSegment(s: string): (r: string)
    ensures '/' !in r
    ensures |r| <= |s| && r == s[|s| - |r|..]
    ensures |r| == |s| || s[|s| - |r| - 1] == '/'
    decreases |s|
  {
    if s == [] then []
    else if s[|s| - 1] == '/' then []
    else LastSegment(s[..|s| - 1]) + [s[|s| - 1]]
  }

  /** The quoted candidate of `run` (line 9): the tail of the quoted selection after
      its last separator, so it holds no separator itself. */
  function QuotedCandidate(line: string, position: nat): (r: string)
    ensures '/' !in r
  {
    LastSegment(QuotedSelection(line, position))
  }

  /** Text between double quotes around the column, opened past column 0, gives its
      last path segment. */
  lemma {:induction false} QuotedCandidateOfPair(line: string, position: nat, o: int, cl: int)
    requires Brackets(line, position, '"', o, cl) && o > 0 && o + 1 < cl
    ensures QuotedCandidate(line, position) == LastSegment(line[o + 1..cl])
  {
    QuotedSelectionChoice(line, position);
  }
}
