/** The saved-quotes store: one list of saved quotes, kept as JSON under a
    single storage key, newest first, deduplicated by exact text and cut to
    `MaxQuotes` on every write.

    The storage slot is an abstract value (`Stored`): what reading the key
    and parsing it yields. A write never fails silently in the model: each
    write takes the outcome the storage gives it (`WriteOutcome`) as a
    parameter, and ids and timestamps are passed in. */
module SavedQuotesStore {
  import opened Wrappers
  import opened Seqs
  import opened Records

  const StorageKey: string := "wisdom_whispers_saved_quotes"
  const MaxQuotes: nat := 100

  /** One element of the parsed array. `NotObject` stands for null, numbers,
      strings, booleans and arrays (an array has none of the three keys);
      an object records which of the required keys it has and the record its
      fields make up. */
  datatype RawRecord =
    | NotObject
    | Object(hasId: bool, hasQuote: bool, hasSavedAt: bool, fields: SavedQuote)

  /** What the storage key holds: nothing (or the empty string), text that is
      not JSON, JSON that is not an array, or an array. */
  datatype Stored = Absent | Unparsable | NonArray | Arr(elems: seq<RawRecord>)

  /** How one `setItem` call ends. */
  datatype WriteOutcome = Written | QuotaExceeded | OtherError

  /** The new content of the storage slot and how the operation ends: its
      value, or the write error that escapes it. */
  datatype Effect<+T> = Effect(stored: Stored, outcome: Result<T, WriteOutcome>)

  /** An element that reading keeps: an object with `id`, `quote` and `savedAt`. */
  predicate IsRecord(r: RawRecord) {
    r.Object? && r.hasId && r.hasQuote && r.hasSavedAt
  }

  function Fields(rs: seq<RawRecord>): (qs: seq<SavedQuote>)
    requires forall j :: 0 <= j < |rs| ==> rs[j].Object?
  {
    seq(|rs|, j requires 0 <= j < |rs| => rs[j].fields)
  }

  /** The records a read yields: the empty list for an absent, unparsable or
      non-array value, otherwise the records among the array's elements. */
  function Decode(s: Stored): (qs: seq<SavedQuote>)
    ensures !s.Arr? ==> qs == []
    ensures s.Arr? ==> |qs| <= |s.elems|
  {
    match s
    case Arr(rs) =>
      var kept := Filter(rs, IsRecord);
      assert forall j :: 0 <= j < |kept| ==> kept[j] in kept;
      Fields(kept)
    case _ => []
  }

  /** What writing a list stores: a JSON array of complete records. */
  function Encode(qs: seq<SavedQuote>): (s: Stored)
    ensures s.Arr? && |s.elems| == |qs|
  {
    Arr(seq(|qs|, j requires 0 <= j < |qs| => Object(true, true, true, qs[j])))
  }

  /** `qs.slice(0, n)`. */
  function Take(qs: seq<SavedQuote>, n: nat): (r: seq<SavedQuote>)
    ensures |r| == if |qs| <= n then |qs| else n
    ensures r == qs[..|r|]
  {
    if |qs| <= n then qs else qs[..n]
  }

  /** A write ends in an exception only when the quota was exceeded and the
      retry with the shorter list fails as well. */
  predicate Escapes(first: WriteOutcome, retry: WriteOutcome) {
    first == QuotaExceeded && retry != Written
  }

  /** Writing `qs`: the first `MaxQuotes` records are stored; when the quota
      is exceeded the first `MaxQuotes / 2` are stored instead, and a failure
      of that second write escapes; any other failure is swallowed. A failed
      `setItem` leaves the slot as it was. */
  function Persist(prev: Stored, qs: seq<SavedQuote>, first: WriteOutcome, retry: WriteOutcome): Effect<()>
  {
    match first
    case Written => Effect(Encode(Take(qs, MaxQuotes)), Success(()))
    case OtherError => Effect(prev, Success(()))
    case QuotaExceeded =>
      if retry == Written then Effect(Encode(Take(qs, MaxQuotes / 2)), Success(()))
      else Effect(prev, Failure(retry))
  }

  predicate HasQuote(t: string, q: SavedQuote) { q.quote == t }
  predicate HasId(id: string, q: SavedQuote) { q.id == id }

  /** Saving `quote`: if a stored record has exactly that text, that (first)
      record is the result and nothing is written; otherwise a new record is
      put in front of the stored ones and the list is written. */
  function SaveEffect(prev: Stored, quote: string, author: Option<string>, language: Language,
                      isFavorite: bool, id: string, now: int,
                      first: WriteOutcome, retry: WriteOutcome): Effect<SavedQuote>
  {
    var qs := Decode(prev);
    match IndexWhere(qs, q => HasQuote(quote, q))
    case Some(i) => Effect(prev, Success(qs[i]))
    case None =>
      var rec := SavedQuote(id, quote, author, now, isFavorite, language);
      var w := Persist(prev, [rec] + qs, first, retry);
      match w.outcome
      case Success(_) => Effect(w.stored, Success(rec))
      case Failure(e) => Effect(w.stored, Failure(e))
  }

  /** `qs` with the favorite flag of the record at `i` flipped. */
  function Flipped(qs: seq<SavedQuote>, i: nat): seq<SavedQuote>
    requires i < |qs|
  {
    qs[i := qs[i].(isFavorite := !qs[i].isFavorite)]
  }

  /** Toggling the favorite flag of the first record with `id`; an unknown id
      writes nothing. */
  function ToggleEffect(prev: Stored, id: string, first: WriteOutcome, retry: WriteOutcome): Effect<()>
  {
    var qs := Decode(prev);
    match IndexWhere(qs, q => HasId(id, q))
    case None => Effect(prev, Success(()))
    case Some(i) => Persist(prev, Flipped(qs, i), first, retry)
  }

  /** The records whose id differs from `id`, in order. */
  function WithoutId(qs: seq<SavedQuote>, id: string): seq<SavedQuote> {
    Filter(qs, q => !HasId(id, q))
  }

  /** Deleting by id writes the remaining records, even when none matched. */
  function DeleteEffect(prev: Stored, id: string, first: WriteOutcome, retry: WriteOutcome): Effect<()>
  {
    Persist(prev, WithoutId(Decode(prev), id), first, retry)
  }

  /** No two records share a text. */
  predicate DistinctQuotes(qs: seq<SavedQuote>) {
    forall i, j :: 0 <= i < j < |qs| ==> qs[i].quote != qs[j].quote
  }

  /** The store object: its one field is the storage slot. */
  class Store {
    var storage: Stored

    constructor (initial: Stored)
      ensures storage == initial
    {
      storage := initial;
    }

    /** Reading the slot never fails: corruption reads as the empty list. */
    method GetStoredQuotes() returns (qs: seq<SavedQuote>)
      ensures qs == Decode(storage)
    {
      match storage {
        case Arr(rs) =>
          var kept := Filter(rs, IsRecord);
          assert forall j :: 0 <= j < |kept| ==> kept[j] in kept;
          qs := Fields(kept);
        case _ =>
          qs := [];
      }
    }

    method SaveToStorage(qs: seq<SavedQuote>, first: WriteOutcome, retry: WriteOutcome)
      returns (outcome: Result<(), WriteOutcome>)
      modifies this
      ensures Effect(storage, outcome) == Persist(old(storage), qs, first, retry)
    {
      outcome := Success(());
      if first == Written {
        storage := Encode(Take(qs, MaxQuotes));
      } else if first == QuotaExceeded {
        if retry == Written {
          storage := Encode(Take(qs, MaxQuotes / 2));
        } else {
          outcome := Failure(retry);
        }
      }
    }

    method GetAll() returns (qs: seq<SavedQuote>)
      ensures qs == Decode(storage)
    {
      qs := GetStoredQuotes();
    }

    method Save(quote: string, author: Option<string>, language: Language,
                id: string, now: int, first: WriteOutcome, retry: WriteOutcome, isFavorite: bool := false)
      returns (r: Result<SavedQuote, WriteOutcome>)
      modifies this
      ensures Effect(storage, r) == SaveEffect(old(storage), quote, author, language, isFavorite, id, now, first, retry)
    {
      var quotes := GetStoredQuotes();
      var existing := IndexWhere(quotes, q => HasQuote(quote, q));
      if existing.Some? {
        return Success(quotes[existing.value]);
      }
      var newQuote := SavedQuote(id, quote, author, now, isFavorite, language);
      quotes := [newQuote] + quotes;
      var written := SaveToStorage(quotes, first, retry);
      if written.Failure? {
        return Failure(written.error);
      }
      r := Success(newQuote);
    }

    method ToggleFavorite(id: string, first: WriteOutcome, retry: WriteOutcome)
      returns (r: Result<(), WriteOutcome>)
      modifies this
      ensures Effect(storage, r) == ToggleEffect(old(storage), id, first, retry)
    {
      var quotes := GetStoredQuotes();
      var index := IndexWhere(quotes, q => HasId(id, q));
      r := Success(());
      if index.Some? {
        var i := index.value;
        quotes := quotes[i := quotes[i].(isFavorite := !quotes[i].isFavorite)];
        r := SaveToStorage(quotes, first, retry);
      }
    }

    method Delete(id: string, first: WriteOutcome, retry: WriteOutcome)
      returns (r: Result<(), WriteOutcome>)
      modifies this
      ensures Effect(storage, r) == DeleteEffect(old(storage), id, first, retry)
    {
      var quotes := GetStoredQuotes();
      var filtered := Filter(quotes, q => !HasId(id, q));
      r := SaveToStorage(filtered, first, retry);
    }

    /** Removes the key: every later read is empty. */
    method ClearAll()
      modifies this
      ensures storage == Absent && Decode(storage) == []
    {
      storage := Absent;
    }

    /** Some stored record has exactly the text `quote`. */
    method Exists(quote: string) returns (b: bool)
      ensures b <==> exists q :: q in Decode(storage) && q.quote == quote
    {
      var quotes := GetStoredQuotes();
      var found := IndexWhere(quotes, q => HasQuote(quote, q));
      b := found.Some?;
      if b {
        assert quotes[found.value] in quotes;
      }
    }

    /** The favorite flag of the first record with text `quote`; false when
        there is none. */
    method IsFavorited(quote: string) returns (b: bool)
      ensures var qs := Decode(storage);
        b <==> exists i :: 0 <= i < |qs| && qs[i].quote == quote && qs[i].isFavorite &&
                          forall j :: 0 <= j < i ==> qs[j].quote != quote
    {
      var quotes := GetStoredQuotes();
      var found := IndexWhere(quotes, q => HasQuote(quote, q));
      b := found.Some? && quotes[found.value].isFavorite;
    }
  }

  // ---------------------------------------------------------------------
  // Properties of reading and writing

  /** Reading back what was written gives the written list. */
  lemma DecodeEncode(qs: seq<SavedQuote>)
    ensures Decode(Encode(qs)) == qs
  {
    var rs := Encode(qs).elems;
    FilterKeepsAll(rs, IsRecord);
  }

  /** Reading keeps the stored order: the records of an array are the records
      of its first part followed by those of the rest. */
  lemma DecodeAppend(a: seq<RawRecord>, b: seq<RawRecord>)
    ensures Decode(Arr(a + b)) == Decode(Arr(a)) + Decode(Arr(b))
  {
    FilterAppend(a, b, IsRecord);
    var fa, fb := Filter(a, IsRecord), Filter(b, IsRecord);
    assert forall j :: 0 <= j < |fa| ==> fa[j] in fa;
    assert forall j :: 0 <= j < |fb| ==> fb[j] in fb;
    FieldsAppend(fa, fb);
  }

  lemma FieldsAppend(fa: seq<RawRecord>, fb: seq<RawRecord>)
    requires forall j :: 0 <= j < |fa| ==> fa[j].Object?
    requires forall j :: 0 <= j < |fb| ==> fb[j].Object?
    ensures Fields(fa + fb) == Fields(fa) + Fields(fb)
  {
  }

  /** A single element is read as a record exactly when it is an object with
      `id`, `quote` and `savedAt`. */
  lemma DecodeOne(r: RawRecord)
    ensures Decode(Arr([r])) == if IsRecord(r) then [r.fields] else []
  {
    assert [r][1..] == [];
  }

  /** A write stores the first `MaxQuotes` records, or the first
      `MaxQuotes / 2` after a quota error; a failed write leaves the slot as it
      was; the list stored never grows past `MaxQuotes`. */
  lemma PersistWrites(prev: Stored, qs: seq<SavedQuote>, first: WriteOutcome, retry: WriteOutcome)
    ensures var e := Persist(prev, qs, first, retry);
      && (first == Written ==> Decode(e.stored) == Take(qs, MaxQuotes))
      && (first == QuotaExceeded && retry == Written ==> Decode(e.stored) == Take(qs, MaxQuotes / 2))
      && (first == OtherError || Escapes(first, retry) ==> e.stored == prev)
      && (e.outcome.Failure? <==> Escapes(first, retry))
      && (|Decode(prev)| <= MaxQuotes ==> |Decode(e.stored)| <= MaxQuotes)
  {
    DecodeEncode(Take(qs, MaxQuotes));
    DecodeEncode(Take(qs, MaxQuotes / 2));
  }

  // ---------------------------------------------------------------------
  // save

  /** Saving a text that is already stored returns the first record with that
      text, unchanged, and writes nothing. */
  lemma SaveStoredText(prev: Stored, quote: string, author: Option<string>, language: Language,
                       isFavorite: bool, id: string, now: int, first: WriteOutcome, retry: WriteOutcome)
    requires exists q :: q in Decode(prev) && q.quote == quote
    ensures var e := SaveEffect(prev, quote, author, language, isFavorite, id, now, first, retry);
      var qs := Decode(prev);
      && e.stored == prev
      && e.outcome.Success?
      && exists i :: 0 <= i < |qs| && e.outcome.value == qs[i] && qs[i].quote == quote &&
                     forall j :: 0 <= j < i ==> qs[j].quote != quote
  {
    var qs := Decode(prev);
    var q :| q in qs && q.quote == quote;
    var k :| 0 <= k < |qs| && qs[k] == q;
    assert HasQuote(quote, qs[k]);
  }

  /** Saving a new text puts the new record first, followed by the records
      that were stored, in their order, as many as fit under `MaxQuotes`:
      the record evicted is the last one by position. */
  lemma SaveNewText(prev: Stored, quote: string, author: Option<string>, language: Language,
                    isFavorite: bool, id: string, now: int, retry: WriteOutcome)
    requires forall q :: q in Decode(prev) ==> q.quote != quote
    ensures var e := SaveEffect(prev, quote, author, language, isFavorite, id, now, Written, retry);
      var rec := SavedQuote(id, quote, author, now, isFavorite, language);
      && e.outcome == Success(rec)
      && Decode(e.stored) == [rec] + Take(Decode(prev), MaxQuotes - 1)
  {
    var qs := Decode(prev);
    var rec := SavedQuote(id, quote, author, now, isFavorite, language);
    PersistWrites(prev, [rec] + qs, Written, retry);
    assert Take([rec] + qs, MaxQuotes) == [rec] + Take(qs, MaxQuotes - 1);
  }

  /** Saving the same text again, once the first save was written (at once
      or on the retry after a quota error), changes nothing and returns the
      record of the first save (same id and time). */
  lemma SaveIsIdempotent(prev: Stored, quote: string, author: Option<string>, language: Language,
                         isFavorite: bool, id: string, now: int, first: WriteOutcome, retry: WriteOutcome,
                         author2: Option<string>, language2: Language, isFavorite2: bool,
                         id2: string, now2: int, first2: WriteOutcome, retry2: WriteOutcome)
    requires first == Written || (first == QuotaExceeded && retry == Written)
    ensures var e1 := SaveEffect(prev, quote, author, language, isFavorite, id, now, first, retry);
      var e2 := SaveEffect(e1.stored, quote, author2, language2, isFavorite2, id2, now2, first2, retry2);
      e2 == e1
  {
    var qs := Decode(prev);
    var e1 := SaveEffect(prev, quote, author, language, isFavorite, id, now, first, retry);
    var found := IndexWhere(qs, q => HasQuote(quote, q));
    if found.None? {
      var rec := SavedQuote(id, quote, author, now, isFavorite, language);
      PersistWrites(prev, [rec] + qs, first, retry);
      var after := Decode(e1.stored);
      assert after[0] == rec;
      assert IndexWhere(after, q => HasQuote(quote, q)) == Some(0);
    }
  }

  /** A first save whose write fails with an error other than the quota is
      reported as a success with the new record, though nothing was stored:
      the text is still not saved, and saving it again makes a new record,
      with the new id. */
  lemma SaveLostOnOtherError(prev: Stored, quote: string, author: Option<string>, language: Language,
                             isFavorite: bool, id: string, now: int, retry: WriteOutcome,
                             author2: Option<string>, language2: Language, isFavorite2: bool,
                             id2: string, now2: int, first2: WriteOutcome, retry2: WriteOutcome)
    requires forall q :: q in Decode(prev) ==> q.quote != quote
    ensures var e1 := SaveEffect(prev, quote, author, language, isFavorite, id, now, OtherError, retry);
      var e2 := SaveEffect(e1.stored, quote, author2, language2, isFavorite2, id2, now2, first2, retry2);
      && e1 == Effect(prev, Success(SavedQuote(id, quote, author, now, isFavorite, language)))
      && (forall q :: q in Decode(e1.stored) ==> q.quote != quote)
      && (e2.outcome.Success? ==> e2.outcome.value == SavedQuote(id2, quote, author2, now2, isFavorite2, language2))
      && (id2 != id ==> e2 != e1)
  {
  }

  /** A write of a list without repeated texts leaves none in storage. */
  lemma PersistKeepsDistinct(prev: Stored, qs: seq<SavedQuote>, first: WriteOutcome, retry: WriteOutcome)
    requires DistinctQuotes(Decode(prev)) && DistinctQuotes(qs)
    ensures DistinctQuotes(Decode(Persist(prev, qs, first, retry).stored))
  {
    PersistWrites(prev, qs, first, retry);
  }

  /** Saving never creates a second record with the same text. */
  lemma SaveKeepsDistinct(prev: Stored, quote: string, author: Option<string>, language: Language,
                          isFavorite: bool, id: string, now: int, first: WriteOutcome, retry: WriteOutcome)
    requires DistinctQuotes(Decode(prev))
    ensures DistinctQuotes(Decode(SaveEffect(prev, quote, author, language, isFavorite, id, now, first, retry).stored))
  {
    var qs := Decode(prev);
    if IndexWhere(qs, q => HasQuote(quote, q)).None? {
      var rec := SavedQuote(id, quote, author, now, isFavorite, language);
      var list := [rec] + qs;
      forall i, j | 0 <= i < j < |list| ensures list[i].quote != list[j].quote {
        if i == 0 {
          assert list[j] == qs[j - 1];
        } else {
          assert list[i] == qs[i - 1] && list[j] == qs[j - 1];
        }
      }
      PersistKeepsDistinct(prev, list, first, retry);
    }
  }

  // ---------------------------------------------------------------------
  // toggleFavorite

  /** Toggling flips the flag of the first record with the id and changes no
      other record or field; an unknown id writes nothing. */
  lemma ToggleFlipsFirstMatch(prev: Stored, id: string, retry: WriteOutcome)
    requires |Decode(prev)| <= MaxQuotes
    ensures var qs := Decode(prev);
      var e := ToggleEffect(prev, id, Written, retry);
      var after := Decode(e.stored);
      && e.outcome == Success(())
      && ((forall j :: 0 <= j < |qs| ==> qs[j].id != id) ==> e.stored == prev)
      && |after| == |qs|
      && forall j :: 0 <= j < |qs| ==>
           after[j] == if qs[j].id == id && (forall k :: 0 <= k < j ==> qs[k].id != id)
                       then qs[j].(isFavorite := !qs[j].isFavorite) else qs[j]
  {
    var qs := Decode(prev);
    match IndexWhere(qs, q => HasId(id, q)) {
      case None =>
      case Some(i) =>
        PersistWrites(prev, Flipped(qs, i), Written, retry);
        forall j | 0 <= j < |qs| && qs[j].id == id && (forall k :: 0 <= k < j ==> qs[k].id != id)
          ensures j == i
        {
        }
    }
  }

  /** Flipping a record keeps every id, and flipping it again restores it. */
  lemma FlippedTwice(qs: seq<SavedQuote>, i: nat)
    requires i < |qs|
    ensures |Flipped(qs, i)| == |qs| && forall j :: 0 <= j < |qs| ==> Flipped(qs, i)[j].id == qs[j].id
    ensures Flipped(Flipped(qs, i), i) == qs
  {
  }

  /** Toggling the same id twice restores every record. */
  lemma ToggleTwiceRestores(prev: Stored, id: string, retry1: WriteOutcome, retry2: WriteOutcome)
    requires |Decode(prev)| <= MaxQuotes
    ensures var e1 := ToggleEffect(prev, id, Written, retry1);
      Decode(ToggleEffect(e1.stored, id, Written, retry2).stored) == Decode(prev)
  {
    var qs := Decode(prev);
    var e1 := ToggleEffect(prev, id, Written, retry1);
    match IndexWhere(qs, q => HasId(id, q)) {
      case None =>
      case Some(i) =>
        var once := Flipped(qs, i);
        PersistWrites(prev, once, Written, retry1);
        assert Decode(e1.stored) == once;
        FlippedTwice(qs, i);
        assert IndexWhere(once, q => HasId(id, q)) == Some(i);
        PersistWrites(e1.stored, Flipped(once, i), Written, retry2);
    }
  }

  /** Toggling changes no text, so it keeps texts distinct. */
  lemma ToggleKeepsDistinct(prev: Stored, id: string, first: WriteOutcome, retry: WriteOutcome)
    requires DistinctQuotes(Decode(prev))
    ensures DistinctQuotes(Decode(ToggleEffect(prev, id, first, retry).stored))
  {
    var qs := Decode(prev);
    match IndexWhere(qs, q => HasId(id, q)) {
      case None =>
      case Some(i) =>
        PersistKeepsDistinct(prev, Flipped(qs, i), first, retry);
    }
  }

  // ---------------------------------------------------------------------
  // delete

  lemma {:induction false} FilterKeepsDistinct(qs: seq<SavedQuote>, p: SavedQuote -> bool)
    requires DistinctQuotes(qs)
    ensures DistinctQuotes(Filter(qs, p))
    decreases |qs|
  {
    if qs != [] {
      FilterKeepsDistinct(qs[1..], p);
      var rest := Filter(qs[1..], p);
      if p(qs[0]) {
        var r := [qs[0]] + rest;
        forall i, j | 0 <= i < j < |r| ensures r[i].quote != r[j].quote {
          if i == 0 {
            assert r[j] in qs[1..];
          } else {
            assert r[i] == rest[i - 1] && r[j] == rest[j - 1];
          }
        }
      }
    }
  }

  /** Deleting keeps, in their order, exactly the records whose id differs. */
  lemma DeleteKeepsOthers(prev: Stored, id: string, retry: WriteOutcome)
    requires |Decode(prev)| <= MaxQuotes
    ensures var qs := Decode(prev);
      var e := DeleteEffect(prev, id, Written, retry);
      var after := Decode(e.stored);
      && e.outcome == Success(())
      && IsSubsequence(after, qs)
      && (forall q :: q in after <==> q in qs && q.id != id)
      && (forall q :: multiset(after)[q] == if q.id != id then multiset(qs)[q] else 0)
  {
    var qs := Decode(prev);
    PersistWrites(prev, WithoutId(qs, id), Written, retry);
    FilterIsSubsequence(qs, q => !HasId(id, q));
    FilterCounts(qs, q => !HasId(id, q));
  }

  /** Deleting keeps texts distinct. */
  lemma DeleteKeepsDistinct(prev: Stored, id: string, first: WriteOutcome, retry: WriteOutcome)
    requires DistinctQuotes(Decode(prev))
    ensures DistinctQuotes(Decode(DeleteEffect(prev, id, first, retry).stored))
  {
    var qs := Decode(prev);
    FilterKeepsDistinct(qs, q => !HasId(id, q));
    PersistKeepsDistinct(prev, WithoutId(qs, id), first, retry);
  }

  // ---------------------------------------------------------------------
  // the bound and a scenario

  /** No operation takes the stored list past `MaxQuotes`, whatever its
      write outcomes. */
  lemma SaveKeepsBound(prev: Stored, quote: string, author: Option<string>, language: Language,
                       isFavorite: bool, id: string, now: int, first: WriteOutcome, retry: WriteOutcome)
    requires |Decode(prev)| <= MaxQuotes
    ensures |Decode(SaveEffect(prev, quote, author, language, isFavorite, id, now, first, retry).stored)| <= MaxQuotes
  {
    var rec := SavedQuote(id, quote, author, now, isFavorite, language);
    PersistWrites(prev, [rec] + Decode(prev), first, retry);
  }

  lemma ToggleKeepsBound(prev: Stored, id: string, first: WriteOutcome, retry: WriteOutcome)
    requires |Decode(prev)| <= MaxQuotes
    ensures |Decode(ToggleEffect(prev, id, first, retry).stored)| <= MaxQuotes
  {
    var qs := Decode(prev);
    match IndexWhere(qs, q => HasId(id, q)) {
      case None =>
      case Some(i) => PersistWrites(prev, Flipped(qs, i), first, retry);
    }
  }

  lemma DeleteKeepsBound(prev: Stored, id: string, first: WriteOutcome, retry: WriteOutcome)
    requires |Decode(prev)| <= MaxQuotes
    ensures |Decode(DeleteEffect(prev, id, first, retry).stored)| <= MaxQuotes
  {
    PersistWrites(prev, WithoutId(Decode(prev), id), first, retry);
  }

  /** From an empty slot, saving "A", "A" again and then "B" stores B before
      A, with A's first record kept. */
  lemma SaveScenario(a: SavedQuote, b: SavedQuote, idA2: string, nowA2: int)
    requires a.quote != b.quote
    ensures var e1 := SaveEffect(Absent, a.quote, a.author, a.language, a.isFavorite, a.id, a.savedAt, Written, Written);
      var e2 := SaveEffect(e1.stored, a.quote, None, En, false, idA2, nowA2, Written, Written);
      var e3 := SaveEffect(e2.stored, b.quote, b.author, b.language, b.isFavorite, b.id, b.savedAt, Written, Written);
      && e2.outcome == Success(a)
      && e3.outcome == Success(b)
      && Decode(e3.stored) == [b, a]
  {
    SaveNewText(Absent, a.quote, a.author, a.language, a.isFavorite, a.id, a.savedAt, Written);
    var e1 := SaveEffect(Absent, a.quote, a.author, a.language, a.isFavorite, a.id, a.savedAt, Written, Written);
    assert Decode(e1.stored) == [a];
    SaveIsIdempotent(Absent, a.quote, a.author, a.language, a.isFavorite, a.id, a.savedAt, Written, Written,
                     None, En, false, idA2, nowA2, Written, Written);
    SaveNewText(e1.stored, b.quote, b.author, b.language, b.isFavorite, b.id, b.savedAt, Written);
  }
}
