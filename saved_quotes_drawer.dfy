/** The saved-quotes drawer's pure parts: the relative age shown beside each
    saved quote, and the selection of the list a tab shows. */
module SavedQuotesDrawer {
  import opened Seqs
  import opened Text
  import opened Records
  import opened SavedQuotesCoordinator

  const MsPerDay: int := 86400000

  /** Whole days elapsed from `savedAt` to `now`, rounded down; negative for
      a timestamp in the future. */
  function DayCount(now: int, savedAt: int): (days: int)
    ensures days * MsPerDay <= now - savedAt < (days + 1) * MsPerDay
  {
    (now - savedAt) / MsPerDay
  }

  /** The relative age a day count is shown as. */
  datatype Age = Today | Yesterday | DaysAgo(days: int) | WeeksAgo(weeks: int) | MonthsAgo(months: int) | YearsAgo(years: int)

  function AgeOf(days: int): (a: Age)
    ensures a == Today <==> days == 0
    ensures a == Yesterday <==> days == 1
    ensures a.DaysAgo? <==> days < 0 || 2 <= days < 7
    ensures a.DaysAgo? ==> a.days == days
    ensures a.WeeksAgo? <==> 7 <= days < 30
    ensures a.WeeksAgo? ==> 1 <= a.weeks <= 4 && 7 * a.weeks <= days < 7 * a.weeks + 7
    ensures a.MonthsAgo? <==> 30 <= days < 365
    ensures a.MonthsAgo? ==> 1 <= a.months <= 12 && 30 * a.months <= days < 30 * a.months + 30
    ensures a.YearsAgo? <==> 365 <= days
    ensures a.YearsAgo? ==> 1 <= a.years && 365 * a.years <= days < 365 * a.years + 365
  {
    if days == 0 then Today
    else if days == 1 then Yesterday
    else if days < 7 then DaysAgo(days)
    else if days < 30 then WeeksAgo(days / 7)
    else if days < 365 then MonthsAgo(days / 30)
    else YearsAgo(days / 365)
  }

  /** `formatDate(savedAt)` at the instant `now`. */
  function FormatDate(now: int, savedAt: int): Age {
    AgeOf(DayCount(now, savedAt))
  }

  /** The words of the current language for each kind of age. */
  datatype AgeWords = AgeWords(today: string, yesterday: string, daysAgo: string,
                               weeksAgo: string, monthsAgo: string, yearsAgo: string)

  /** The text shown: the fixed word for today and yesterday, otherwise the
      number in decimal immediately followed by the unit word. */
  function Render(a: Age, w: AgeWords): (text: string)
    ensures a == Today ==> text == w.today
    ensures a == Yesterday ==> text == w.yesterday
    ensures a.DaysAgo? ==> text == IntToString(a.days) + w.daysAgo
    ensures a.WeeksAgo? ==> text == IntToString(a.weeks) + w.weeksAgo
    ensures a.MonthsAgo? ==> text == IntToString(a.months) + w.monthsAgo
    ensures a.YearsAgo? ==> text == IntToString(a.years) + w.yearsAgo
  {
    match a
    case Today => w.today
    case Yesterday => w.yesterday
    case DaysAgo(n) => IntToString(n) + w.daysAgo
    case WeeksAgo(n) => IntToString(n) + w.weeksAgo
    case MonthsAgo(n) => IntToString(n) + w.monthsAgo
    case YearsAgo(n) => IntToString(n) + w.yearsAgo
  }

  /** Saving just now shows as today; exactly one week earlier as one week. */
  lemma FreshQuoteIsToday(now: int)
    ensures FormatDate(now, now) == Today
    ensures FormatDate(now, now - 7 * MsPerDay) == WeeksAgo(1)
  {
    assert DayCount(now, now - 7 * MsPerDay) == 7;
  }

  /** A quote saved later never shows as older: the day count does not grow
      as `savedAt` moves toward `now`. */
  lemma DayCountMonotone(now: int, earlier: int, later: int)
    requires earlier <= later
    ensures DayCount(now, later) <= DayCount(now, earlier)
  {
  }

  datatype Tab = AllTab | FavoritesTab

  function InLanguage(qs: seq<SavedQuote>, language: Language): seq<SavedQuote> {
    Filter(qs, (q: SavedQuote) => q.language == language)
  }

  /** The list a tab shows: the favorites on the favorites tab, otherwise all
      saved quotes, restricted to the current language. */
  function Shown(tab: Tab, quotes: seq<SavedQuote>, favorites: seq<SavedQuote>, language: Language): seq<SavedQuote> {
    InLanguage(if tab == FavoritesTab then favorites else quotes, language)
  }

  /** The count a tab's badge shows. */
  function BadgeCount(tab: Tab, quotes: seq<SavedQuote>, favorites: seq<SavedQuote>, language: Language): (n: nat)
    ensures n <= |if tab == FavoritesTab then favorites else quotes|
  {
    |InLanguage(if tab == FavoritesTab then favorites else quotes, language)|
  }

  /** The shown list keeps the order of the tab's list and holds exactly its
      quotes in the current language; the badge counts it. */
  lemma ShownIsSelection(tab: Tab, quotes: seq<SavedQuote>, favorites: seq<SavedQuote>, language: Language)
    ensures var source := if tab == FavoritesTab then favorites else quotes;
      var shown := Shown(tab, quotes, favorites, language);
      && IsSubsequence(shown, source)
      && (forall q :: q in shown <==> q in source && q.language == language)
      && (forall q :: multiset(shown)[q] == if q.language == language then multiset(source)[q] else 0)
      && BadgeCount(tab, quotes, favorites, language) == |shown|
  {
    FilterIsSubsequence(if tab == FavoritesTab then favorites else quotes, (q: SavedQuote) => q.language == language);
    FilterCounts(if tab == FavoritesTab then favorites else quotes, (q: SavedQuote) => q.language == language);
  }

  /** With the favorites derived from the saved list, the favorites tab shows
      the saved quotes that are both favorite and in the current language, in
      saved order, and its badge never exceeds the all tab's. */
  lemma FavoritesTabSelects(quotes: seq<SavedQuote>, language: Language)
    ensures Shown(FavoritesTab, quotes, Favorites(quotes), language) ==
            Filter(quotes, (q: SavedQuote) => q.isFavorite && q.language == language)
    ensures BadgeCount(FavoritesTab, quotes, Favorites(quotes), language) <=
            BadgeCount(AllTab, quotes, Favorites(quotes), language)
  {
    var inLang := (q: SavedQuote) => q.language == language;
    var both := (q: SavedQuote) => q.isFavorite && q.language == language;
    FilterFilter(quotes, IsFavorite, inLang, both);
    FilterFilter(quotes, inLang, IsFavorite, both);
  }
}
