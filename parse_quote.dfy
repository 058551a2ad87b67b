/** Splitting a quote string into its text and author.

    Two regular expressions are tried on the trimmed input, the dash rule
    `^"?(.+?)"?\s*[-–—]\s*(.+)$` first and the case-insensitive by rule
    `^"?(.+?)"?\s+by\s+(.+)$` second. The model follows the backtracking
    order of a JavaScript regular expression engine: the optional leading
    quote is tried taken first; the lazy first group is tried from the
    shortest length up; greedy whitespace is tried longest first. `.` matches
    any character except a line terminator and `$` is the end of the input. */
module QuoteParser {
  import opened Wrappers
  import opened Text

  datatype ParsedQuote = ParsedQuote(text: string, author: Option<string>)

  datatype Rule = DashRule | ByRule

  /** `[-–—]`: hyphen-minus, en dash, em dash. */
  predicate IsDash(c: char) {
    c == '-' || c == '\U{2013}' || c == '\U{2014}'
  }

  /** No line terminator among `t[a..b]`. */
  predicate NoBreakIn(t: string, a: nat, b: nat)
    requires a <= b <= |t|
  {
    forall k :: a <= k < b ==> !IsLineBreak(t[k])
  }

  predicate IsB(c: char) { c == 'b' || c == 'B' }
  predicate IsY(c: char) { c == 'y' || c == 'Y' }

  /** The first index at or after `p` that is not whitespace. */
  function SkipSpaces(t: string, p: nat): (d: nat)
    requires p <= |t|
    ensures p <= d <= |t|
    ensures forall k :: p <= k < d ==> IsSpace(t[k])
    ensures d == |t| || !IsSpace(t[d])
    decreases |t| - p
  {
    if p < |t| && IsSpace(t[p]) then SkipSpaces(t, p + 1) else p
  }

  /** `(.+)$` tried at `j`, then at `j - 1`, ... down to `lo`, as the
      whitespace before it gives characters back. Yields the start of the
      last group. */
  function Backtrack(t: string, j: nat, lo: nat): (g: Option<nat>)
    requires lo <= j <= |t|
    ensures g.Some? ==> lo <= g.value <= j && g.value < |t| && NoBreakIn(t, g.value, |t|)
    decreases j
  {
    if j < |t| && NoBreakIn(t, j, |t|) then Some(j)
    else if j == lo then None
    else Backtrack(t, j - 1, lo)
  }

  /** `\s*(.+)$` (with `minSpaces` 0) or `\s+(.+)$` (with 1) at `p`. */
  function TailStart(t: string, p: nat, minSpaces: nat): (g: Option<nat>)
    requires p <= |t|
    ensures g.Some? ==> p <= g.value < |t| && NoBreakIn(t, g.value, |t|)
  {
    var m := SkipSpaces(t, p);
    if m < p + minSpaces then None else Backtrack(t, m, p + minSpaces)
  }

  /** The part of a rule after its first group, tried where that group ends,
      at `e`: an optional closing quote, then the separator, then the last
      group. Yields where the last group starts. */
  function AfterGroup(rule: Rule, t: string, e: nat): (g: Option<nat>)
    requires e <= |t|
    ensures g.Some? ==> e < g.value < |t| && NoBreakIn(t, g.value, |t|)
  {
    var p := if e < |t| && t[e] == '"' then e + 1 else e;
    var d := SkipSpaces(t, p);
    match rule
    case DashRule =>
      if d < |t| && IsDash(t[d]) then TailStart(t, d + 1, 0) else None
    case ByRule =>
      if p < d && d + 1 < |t| && IsB(t[d]) && IsY(t[d + 1]) then TailStart(t, d + 2, 1) else None
  }

  /** The lazy first group starting at `q`, grown one character at a time
      from its end `e`: the first end at which the rest of the rule matches. */
  function LazyEnd(rule: Rule, t: string, q: nat, e: nat): (r: Option<(nat, nat)>)
    requires q < e <= |t| && NoBreakIn(t, q, e)
    ensures r.Some? ==> e <= r.value.0 < r.value.1 < |t| && NoBreakIn(t, q, r.value.0)
    ensures r.Some? ==> AfterGroup(rule, t, r.value.0) == Some(r.value.1)
    decreases |t| - e
  {
    match AfterGroup(rule, t, e)
    case Some(g) => Some((e, g))
    case None =>
      if e < |t| && !IsLineBreak(t[e]) then
        LazyEnd(rule, t, q, e + 1)
      else None
  }

  /** One step of the lazy search: a group that does not end at `e` was found
      because the rest of the rule does not match at `e`, and it is the group
      found by growing on from `e + 1`. */
  lemma LazyEndStep(rule: Rule, t: string, q: nat, e: nat)
    requires q < e <= |t| && NoBreakIn(t, q, e)
    requires LazyEnd(rule, t, q, e).Some? && LazyEnd(rule, t, q, e).value.0 != e
    ensures && AfterGroup(rule, t, e).None? && e < |t| && NoBreakIn(t, q, e + 1)
            && LazyEnd(rule, t, q, e) == LazyEnd(rule, t, q, e + 1)
  {
  }

  /** The two captured groups of a successful match. */
  datatype Split = Split(group1: string, group2: string)

  /** A match whose first group starts at `q`. */
  function MatchFrom(rule: Rule, t: string, q: nat): (r: Option<Split>)
    requires q <= |t|
    ensures r.Some? ==> r.value.group1 != [] && r.value.group2 != []
    ensures r.Some? ==> |r.value.group2| <= |t| && r.value.group2 == t[|t| - |r.value.group2|..]
  {
    if q < |t| && !IsLineBreak(t[q]) then
      match LazyEnd(rule, t, q, q + 1)
      case Some((e, g)) => Some(Split(t[q..e], t[g..]))
      case None => None
    else None
  }

  /** The whole rule: `^"?` is greedy, so a leading quote is first taken
      outside the first group and, if that fails, inside it. */
  function Match(rule: Rule, t: string): (r: Option<Split>)
    ensures r.Some? ==> r.value.group1 != [] && r.value.group2 != []
    ensures r.Some? ==> |r.value.group2| <= |t| && r.value.group2 == t[|t| - |r.value.group2|..]
  {
    var quoted := if |t| > 0 && t[0] == '"' then MatchFrom(rule, t, 1) else None;
    if quoted.Some? then quoted else MatchFrom(rule, t, 0)
  }

  /** `s.replace(/^"|"$/g, '')`: one leading and one trailing quote removed. */
  function StripQuotes(s: string): (r: string)
    ensures |r| <= |s|
  {
    var a := if |s| > 0 && s[0] == '"' then s[1..] else s;
    if |a| > 0 && a[|a| - 1] == '"' then a[..|a| - 1] else a
  }

  /** The author taken from the last group ends with the input's last
      character, so it is never empty when the input is trimmed. */
  lemma AuthorNotEmpty(t: string, m: Split)
    requires IsTrimmed(t) && m.group2 != [] && |m.group2| <= |t| && m.group2 == t[|t| - |m.group2|..]
    ensures Trim(m.group2) != []
  {
    assert m.group2[|m.group2| - 1] == t[|t| - 1];
    TrimKeepsLast(m.group2);
  }

  function ParseQuote(quote: string): (r: ParsedQuote)
    ensures IsTrimmed(r.text)
    ensures r.author.Some? ==> IsTrimmed(r.author.value) && r.author.value != []
    ensures r.author.None? <==> Match(DashRule, Trim(quote)).None? && Match(ByRule, Trim(quote)).None?
  {
    var t := Trim(quote);
    match Match(DashRule, t)
    case Some(m) =>
      AuthorNotEmpty(t, m);
      ParsedQuote(Trim(StripQuotes(m.group1)), Some(Trim(m.group2)))
    case None =>
      match Match(ByRule, t)
      case Some(m) =>
        AuthorNotEmpty(t, m);
        ParsedQuote(Trim(StripQuotes(m.group1)), Some(Trim(m.group2)))
      case None =>
        ParsedQuote(Trim(StripQuotes(t)), None)
  }
}
