/** The English quote service presents a quote as `<quote> - <author>`, and
    the application splits what it receives with `parseQuote`. For quotes
    without a dash, a double quote or a line break, the split gives back the
    quote and the author; a dash inside the quote splits it early. The `by`
    rule gives back `<quote> by <author>` when no dash is present, and the
    dash rule wins when both rules could split a text. */
module QuoteRoundTrip {
  import opened Wrappers
  import opened Text
  import opened JsonValues
  import opened Records
  import opened ApiService
  import opened QuoteParser

  /** A quote text the dash rule cannot split inside. */
  predicate PlainQuote(quote: string) {
    && quote != [] && IsTrimmed(quote) && NoLineBreak(quote)
    && forall i :: 0 <= i < |quote| ==> quote[i] != '"' && !IsDash(quote[i])
  }

  predicate PlainAuthor(author: string) {
    author != [] && IsTrimmed(author) && NoLineBreak(author)
  }

  /** A quote text neither rule can split inside: plain, and without the
      letter that begins `by`. */
  predicate ByQuote(quote: string) {
    PlainQuote(quote) && forall i :: 0 <= i < |quote| ==> !IsB(quote[i])
  }

  /** How a quote with its author reads in the `by` form. */
  function ByText(quote: string, author: string): string {
    quote + " by " + author
  }

  /** The character that begins the rule's separator. */
  predicate StartsSeparator(rule: Rule, c: char) {
    match rule
    case DashRule => IsDash(c)
    case ByRule => IsB(c)
  }

  /** The first `n` characters of `t` end in a non-space and hold no double
      quote, no line break and no start of the rule's separator. */
  predicate PlainPrefix(rule: Rule, t: string, n: nat) {
    && 0 < n <= |t| && !IsSpace(t[n - 1])
    && forall i :: 0 <= i < n ==> t[i] != '"' && !IsLineBreak(t[i]) && !StartsSeparator(rule, t[i])
  }

  /** Inside a plain prefix no separator follows: the next non-space
      character is still in the prefix. */
  lemma NoSplitInside(rule: Rule, t: string, n: nat, e: nat)
    requires PlainPrefix(rule, t, n) && 0 < e < n
    ensures AfterGroup(rule, t, e).None?
  {
    var d := SkipSpaces(t, e);
    assert d < n;
    assert !StartsSeparator(rule, t[d]);
  }

  /** The lazy group grows over a plain prefix to the separator after it. */
  lemma {:induction false} LazySplitsAt(rule: Rule, t: string, n: nat, g: nat, e: nat)
    requires PlainPrefix(rule, t, n) && AfterGroup(rule, t, n) == Some(g) && 0 < e <= n
    ensures NoBreakIn(t, 0, e) && LazyEnd(rule, t, 0, e) == Some((n, g))
    decreases n - e
  {
    if e < n {
      NoSplitInside(rule, t, n, e);
      LazySplitsAt(rule, t, n, g, e + 1);
    }
  }

  /** A rule whose separator follows a plain prefix splits there. */
  lemma SplitsAt(rule: Rule, t: string, n: nat, g: nat)
    requires PlainPrefix(rule, t, n) && AfterGroup(rule, t, n) == Some(g)
    ensures Match(rule, t) == Some(Split(t[..n], t[g..]))
  {
    LazySplitsAt(rule, t, n, g, 1);
  }

  /** ` - ` followed by an author is a dash separator. */
  lemma DashSeparator(prefix: string, author: string)
    requires PlainAuthor(author)
    ensures AfterGroup(DashRule, prefix + " - " + author, |prefix|) == Some(|prefix| + 3)
  {
    var t := prefix + " - " + author;
    var n := |prefix|;
    assert t[n] == ' ' && t[n + 1] == '-' && t[n + 2] == ' ';
    assert SkipSpaces(t, n + 1) == n + 1;
    assert SkipSpaces(t, n) == n + 1;
    assert t[n + 3] == author[0];
    assert SkipSpaces(t, n + 3) == n + 3;
    assert SkipSpaces(t, n + 2) == n + 3;
    forall k | n + 3 <= k < |t| ensures !IsLineBreak(t[k]) {
      assert t[k] == author[k - n - 3];
    }
  }

  /** ` by ` followed by an author is a `by` separator. */
  lemma BySeparator(prefix: string, author: string)
    requires PlainAuthor(author)
    ensures AfterGroup(ByRule, prefix + " by " + author, |prefix|) == Some(|prefix| + 4)
  {
    var t := prefix + " by " + author;
    var n := |prefix|;
    assert t[n] == ' ' && t[n + 1] == 'b' && t[n + 2] == 'y' && t[n + 3] == ' ';
    assert SkipSpaces(t, n + 1) == n + 1;
    assert SkipSpaces(t, n) == n + 1;
    assert t[n + 4] == author[0];
    assert SkipSpaces(t, n + 4) == n + 4;
    assert SkipSpaces(t, n + 3) == n + 4;
    forall k | n + 4 <= k < |t| ensures !IsLineBreak(t[k]) {
      assert t[k] == author[k - n - 4];
    }
  }

  /** The dash rule splits `<quote> - <author>` into the quote and the
      author; the leading character is not a double quote, so the first
      group starts at the beginning. */
  lemma DashRuleSplitsEnglishText(quote: string, author: string)
    requires PlainQuote(quote) && PlainAuthor(author)
    ensures Match(DashRule, EnglishText(quote, author)) == Some(Split(quote, author))
  {
    var t := quote + " - " + author;
    var n := |quote|;
    assert t == quote + (" - " + author);
    PlainPrefixOf(DashRule, quote, " - " + author);
    DashSeparator(quote, author);
    SplitsAt(DashRule, t, n, n + 3);
    assert t[..n] == quote && t[n + 3..] == author;
  }

  /** A trimmed input the dash rule matches is parsed from that match. */
  lemma ParseByDashRule(t: string, m: Split)
    requires IsTrimmed(t) && Match(DashRule, t) == Some(m)
    ensures ParseQuote(t) == ParsedQuote(Trim(StripQuotes(m.group1)), Some(Trim(m.group2)))
  {
    TrimTrimmed(t);
  }

  /** A plain group is left as it is by the quote stripping and trimming. */
  lemma PlainGroupKept(quote: string)
    requires PlainQuote(quote)
    ensures Trim(StripQuotes(quote)) == quote
  {
    assert StripQuotes(quote) == quote;
    TrimTrimmed(quote);
  }

  /** Parsing what the English service presents gives back its parts. */
  lemma EnglishQuoteParsesBack(quote: string, author: string)
    requires PlainQuote(quote) && PlainAuthor(author)
    ensures ParseQuote(EnglishText(quote, author)) == ParsedQuote(quote, Some(author))
  {
    var t := EnglishText(quote, author);
    assert t[0] == quote[0] && t[|t| - 1] == author[|author| - 1];
    DashRuleSplitsEnglishText(quote, author);
    ParseByDashRule(t, Split(quote, author));
    PlainGroupKept(quote);
    TrimTrimmed(author);
  }

  /** The service's own text comes back through `fetchQuote` and
      `parseQuote` as the quote and the author it sent. */
  lemma EnglishFetchParsesBack(network: string -> Completion<HttpResponse>, quote: string, author: string)
    requires network(EnglishUrl).Returned? && IsOk(network(EnglishUrl).value.status)
    requires network(EnglishUrl).value.body.Returned?
    requires var body := network(EnglishUrl).value.body.value;
      && !body.JNull? && Get(body, "quote") == Some(JStr(quote)) && Get(body, "author") == Some(JStr(author))
    requires PlainQuote(quote) && PlainAuthor(author)
    ensures FetchQuote(En, network).ApiSuccess?
    ensures ParseQuote(FetchQuote(En, network).data) == ParsedQuote(quote, Some(author))
  {
    EnglishFieldsPresented(network, quote, author);
    EnglishQuoteParsesBack(quote, author);
  }

  /** Two authors joined by a separator without line breaks read as one
      plain author. */
  lemma JoinedAuthor(left: string, sep: string, right: string)
    requires PlainAuthor(left) && PlainAuthor(right) && NoLineBreak(sep)
    ensures PlainAuthor(left + sep + right)
  {
    var j := left + sep + right;
    assert j[0] == left[0] && j[|j| - 1] == right[|right| - 1];
    forall i | 0 <= i < |j| ensures !IsLineBreak(j[i]) {
      if i < |left| {
        assert j[i] == left[i];
      } else if i < |left| + |sep| {
        assert j[i] == sep[i - |left|];
      } else {
        assert j[i] == right[i - |left| - |sep|];
      }
    }
  }

  /** A dash right after the prefix, followed by a plain author, is a dash
      separator with no spaces. */
  lemma HyphenSeparator(head: string, rest: string)
    requires PlainAuthor(rest)
    ensures AfterGroup(DashRule, head + "-" + rest, |head|) == Some(|head| + 1)
  {
    var t := head + "-" + rest;
    var n := |head|;
    assert t[n] == '-' && t[n + 1] == rest[0];
    assert SkipSpaces(t, n) == n;
    assert SkipSpaces(t, n + 1) == n + 1;
    forall k | n + 1 <= k < |t| ensures !IsLineBreak(t[k]) {
      assert t[k] == rest[k - n - 1];
    }
  }

  /** The dash rule splits `<head>-<rest>` at the hyphen. */
  lemma HyphenMatch(head: string, rest: string)
    requires PlainQuote(head) && PlainAuthor(rest)
    ensures Match(DashRule, head + "-" + rest) == Some(Split(head, rest))
  {
    var t := head + "-" + rest;
    var n := |head|;
    assert PlainPrefix(DashRule, t, n) by {
      forall i | 0 <= i < n ensures t[i] == head[i] {}
    }
    HyphenSeparator(head, rest);
    SplitsAt(DashRule, t, n, n + 1);
    assert t[..n] == head && t[n + 1..] == rest;
  }

  /** A hyphen inside the quote ends the first group there: the lazy group
      stops at the first dash, and the rest of the quote goes to the author
      (`a-b - C` parses as `a` by `b - C`). */
  lemma HyphenSplitsEarly(head: string, tail: string, author: string)
    requires PlainQuote(head) && PlainAuthor(tail) && PlainAuthor(author)
    ensures ParseQuote(EnglishText(head + "-" + tail, author)) ==
            ParsedQuote(head, Some(tail + " - " + author))
  {
    var rest := tail + " - " + author;
    HyphenText(head, tail, author);
    JoinedAuthor(tail, " - ", author);
    HyphenParses(head, rest);
  }

  lemma HyphenText(head: string, tail: string, author: string)
    ensures EnglishText(head + "-" + tail, author) == head + "-" + (tail + " - " + author)
  {
  }

  /** `<head>-<rest>` parses as `<head>` with the author `<rest>`. */
  lemma HyphenParses(head: string, rest: string)
    requires PlainQuote(head) && PlainAuthor(rest)
    ensures ParseQuote(head + "-" + rest) == ParsedQuote(head, Some(rest))
  {
    var t := head + "-" + rest;
    HyphenMatch(head, rest);
    assert t[0] == head[0] && t[|t| - 1] == rest[|rest| - 1];
    ParseByDashRule(t, Split(head, rest));
    PlainGroupKept(head);
    TrimTrimmed(rest);
  }

  /** Without the start of the rule's separator anywhere, the lazy group
      finds no separator. */
  lemma {:induction false} NoSeparatorNoLazyEnd(rule: Rule, t: string, q: nat, e: nat)
    requires q < e <= |t| && NoBreakIn(t, q, e)
    requires forall i :: 0 <= i < |t| ==> !StartsSeparator(rule, t[i])
    ensures LazyEnd(rule, t, q, e).None?
    decreases |t| - e
  {
    if e < |t| && !IsLineBreak(t[e]) {
      NoSeparatorNoLazyEnd(rule, t, q, e + 1);
    }
  }

  /** Without the start of the rule's separator anywhere, the rule does not
      match. */
  lemma NoSeparatorNoMatch(rule: Rule, t: string)
    requires forall i :: 0 <= i < |t| ==> !StartsSeparator(rule, t[i])
    ensures Match(rule, t).None?
  {
    if |t| > 1 && !IsLineBreak(t[1]) {
      NoSeparatorNoLazyEnd(rule, t, 1, 2);
    }
    if |t| > 0 && !IsLineBreak(t[0]) {
      NoSeparatorNoLazyEnd(rule, t, 0, 1);
    }
  }

  /** Without a dash anywhere, the dash rule does not match. */
  lemma NoDashNoMatch(t: string)
    requires forall i :: 0 <= i < |t| ==> !IsDash(t[i])
    ensures Match(DashRule, t).None?
  {
    NoSeparatorNoMatch(DashRule, t);
  }

  /** Without a `b` or `B` anywhere, the `by` rule does not match. */
  lemma NoByNoMatch(t: string)
    requires forall i :: 0 <= i < |t| ==> !IsB(t[i])
    ensures Match(ByRule, t).None?
  {
    NoSeparatorNoMatch(ByRule, t);
  }

  /** A quoted text with neither a dash nor a `b` matches no rule: it is
      parsed without an author, its quotes removed. */
  lemma QuotedTextHasNoAuthor(quote: string)
    requires ByQuote(quote)
    ensures ParseQuote("\"" + quote + "\"") == ParsedQuote(quote, None)
  {
    QuotedPlain(quote);
    NoRuleNoAuthor("\"" + quote + "\"", quote);
  }

  /** A trimmed text with neither a dash nor a `b` is parsed without an
      author, as the text its quotes are stripped to. */
  lemma NoRuleNoAuthor(t: string, text: string)
    requires IsTrimmed(t) && IsTrimmed(text) && StripQuotes(t) == text
    requires forall i :: 0 <= i < |t| ==> !IsDash(t[i]) && !IsB(t[i])
    ensures ParseQuote(t) == ParsedQuote(text, None)
  {
    NoDashNoMatch(t);
    NoByNoMatch(t);
    ParseByNoRule(t);
    TrimTrimmed(text);
  }

  /** A trimmed input neither rule matches is parsed from the whole input. */
  lemma ParseByNoRule(t: string)
    requires IsTrimmed(t) && Match(DashRule, t).None? && Match(ByRule, t).None?
    ensures ParseQuote(t) == ParsedQuote(Trim(StripQuotes(t)), None)
  {
    TrimTrimmed(t);
  }

  /** The quoted text is trimmed, holds no dash and no `b`, and stripping its
      quotes gives back the text. */
  lemma QuotedPlain(quote: string)
    requires ByQuote(quote)
    ensures var t := "\"" + quote + "\"";
      && IsTrimmed(t) && StripQuotes(t) == quote
      && (forall i :: 0 <= i < |t| ==> !IsDash(t[i]) && !IsB(t[i]))
  {
    var t := "\"" + quote + "\"";
    assert forall i :: 1 <= i < |t| - 1 ==> t[i] == quote[i - 1];
    assert t[1..][..|t| - 2] == quote;
  }

  /** The `by` rule splits `<quote> by <author>` into the quote and the
      author. */
  lemma ByRuleSplitsByText(quote: string, author: string)
    requires ByQuote(quote) && PlainAuthor(author)
    ensures Match(ByRule, ByText(quote, author)) == Some(Split(quote, author))
  {
    forall i | 0 <= i < |quote| ensures !StartsSeparator(ByRule, quote[i]) {}
    assert quote[|quote| - 1] == quote[|quote| - 1];
    ByRuleSplitsAfter(quote, author);
  }

  /** The `by` rule splits `<prefix> by <author>` after a plain prefix. */
  lemma ByRuleSplitsAfter(prefix: string, author: string)
    requires prefix != [] && !IsSpace(prefix[|prefix| - 1])
    requires forall i :: 0 <= i < |prefix| ==>
      prefix[i] != '"' && !IsLineBreak(prefix[i]) && !StartsSeparator(ByRule, prefix[i])
    requires PlainAuthor(author)
    ensures Match(ByRule, prefix + " by " + author) == Some(Split(prefix, author))
  {
    var t := prefix + " by " + author;
    var n := |prefix|;
    assert t == prefix + (" by " + author);
    PlainPrefixOf(ByRule, prefix, " by " + author);
    BySeparator(prefix, author);
    SplitsAt(ByRule, t, n, n + 4);
    assert t[..n] == prefix && t[n + 4..] == author;
  }

  /** Without a dash, `<quote> by <author>` parses back to its parts through
      the second rule. */
  lemma ByQuoteParsesBack(quote: string, author: string)
    requires ByQuote(quote) && PlainAuthor(author)
    requires forall i :: 0 <= i < |author| ==> !IsDash(author[i])
    ensures ParseQuote(ByText(quote, author)) == ParsedQuote(quote, Some(author))
  {
    var t := ByText(quote, author);
    var n := |quote|;
    assert t[0] == quote[0] && t[|t| - 1] == author[|author| - 1];
    TrimTrimmed(t);
    forall i | 0 <= i < |t| ensures !IsDash(t[i]) {
      if i < n {
        assert t[i] == quote[i];
      } else if i >= n + 4 {
        assert t[i] == author[i - n - 4];
      }
    }
    NoDashNoMatch(t);
    ByRuleSplitsByText(quote, author);
    PlainGroupKept(quote);
    TrimTrimmed(author);
  }

  /** A prefix whose characters are all plain is a plain prefix of any
      text it begins. */
  lemma PlainPrefixOf(rule: Rule, prefix: string, rest: string)
    requires prefix != [] && !IsSpace(prefix[|prefix| - 1])
    requires forall i :: 0 <= i < |prefix| ==>
      prefix[i] != '"' && !IsLineBreak(prefix[i]) && !StartsSeparator(rule, prefix[i])
    ensures PlainPrefix(rule, prefix + rest, |prefix|)
  {
    var t := prefix + rest;
    forall i | 0 <= i < |prefix| ensures t[i] == prefix[i] {}
  }

  /** `<quote> - <middle>` holds no `b`, double quote or line break, and
      ends in a non-space. */
  lemma DashedPrefixPlain(quote: string, middle: string)
    requires ByQuote(quote) && ByQuote(middle)
    ensures var p := quote + " - " + middle;
      && p != [] && !IsSpace(p[|p| - 1])
      && forall i :: 0 <= i < |p| ==> p[i] != '"' && !IsLineBreak(p[i]) && !StartsSeparator(ByRule, p[i])
  {
    var p := quote + " - " + middle;
    assert p[|p| - 1] == middle[|middle| - 1];
    forall i | 0 <= i < |p| ensures p[i] != '"' && !IsLineBreak(p[i]) && !StartsSeparator(ByRule, p[i]) {
      if i < |quote| {
        assert p[i] == quote[i];
      } else if i >= |quote| + 3 {
        assert p[i] == middle[i - |quote| - 3];
      }
    }
  }

  /** `<quote> - <middle> by <author>` matches the `by` rule too, with
      `<quote> - <middle>` as its first group. */
  lemma ByRuleSplitsDashed(quote: string, middle: string, author: string)
    requires ByQuote(quote) && ByQuote(middle) && PlainAuthor(author)
    ensures Match(ByRule, EnglishText(quote, ByText(middle, author))) ==
            Some(Split(quote + " - " + middle, author))
  {
    var prefix := quote + " - " + middle;
    DashedText(quote, middle, author);
    DashedPrefixPlain(quote, middle);
    ByRuleSplitsAfter(prefix, author);
  }

  lemma DashedText(quote: string, middle: string, author: string)
    ensures EnglishText(quote, ByText(middle, author)) == (quote + " - " + middle) + " by " + author
  {
  }

  lemma ByUnbroken()
    ensures NoLineBreak(" by ")
  {
    var sep := " by ";
    assert |sep| == 4 && sep[0] == ' ' && sep[1] == 'b' && sep[2] == 'y' && sep[3] == ' ';
    forall i | 0 <= i < 4 ensures !IsLineBreak(sep[i]) {
      assert sep[i] in {' ', 'b', 'y'};
    }
  }

  /** The dash rule is tried first: `<quote> - <middle> by <author>` could be
      split by either rule, and it is the dash that splits it. */
  lemma DashRuleWins(quote: string, middle: string, author: string)
    requires ByQuote(quote) && ByQuote(middle) && PlainAuthor(author)
    ensures var t := EnglishText(quote, ByText(middle, author));
      && Match(ByRule, t) == Some(Split(quote + " - " + middle, author))
      && ParseQuote(t) == ParsedQuote(quote, Some(ByText(middle, author)))
  {
    ByRuleSplitsDashed(quote, middle, author);
    ByUnbroken();
    JoinedAuthor(middle, " by ", author);
    EnglishQuoteParsesBack(quote, ByText(middle, author));
  }
}
