/** The saved-records coordinator: an in-memory view of the store (all
    records, and the favorite ones) that is reloaded from the store after
    every mutation made through it and whenever a storage-change signal
    names the store's key. */
module SavedQuotesCoordinator {
  import opened Wrappers
  import opened Seqs
  import opened Records
  import opened SavedQuotesStore

  predicate IsFavorite(q: SavedQuote) {
    q.isFavorite
  }

  /** The favorite records of a list, in the list's order. */
  function Favorites(qs: seq<SavedQuote>): seq<SavedQuote> {
    Filter(qs, IsFavorite)
  }

  /** The favorites are the order-preserving selection of exactly the records
      marked favorite. */
  lemma FavoritesSelection(qs: seq<SavedQuote>)
    ensures IsSubsequence(Favorites(qs), qs)
    ensures forall q :: q in Favorites(qs) <==> q in qs && q.isFavorite
    ensures forall q :: multiset(Favorites(qs))[q] == if q.isFavorite then multiset(qs)[q] else 0
  {
    FilterIsSubsequence(qs, IsFavorite);
    FilterCounts(qs, IsFavorite);
  }

  /** A storage-change signal concerns the store exactly when its key is the
      store's key; a signal without a key (a whole-storage clear) does not. */
  predicate ConcernsStore(key: Option<string>) {
    key == Some(StorageKey)
  }

  class Coordinator {
    const store: Store
    var quotes: seq<SavedQuote>
    var favorites: seq<SavedQuote>

    /** The view shows what the store holds. */
    ghost predicate InSync()
      reads this, store
    {
      quotes == Decode(store.storage) && favorites == Favorites(quotes)
    }

    /** Activation loads the view once. */
    constructor (store: Store)
      ensures this.store == store && InSync()
    {
      this.store := store;
      new;
      LoadQuotes();
    }

    method LoadQuotes()
      modifies this
      ensures InSync()
    {
      var all := store.GetAll();
      quotes := all;
      favorites := Filter(all, IsFavorite);
    }

    /** A storage-change signal from another browsing context. */
    method OnStorageChange(key: Option<string>)
      modifies this
      ensures ConcernsStore(key) ==> InSync()
      ensures !ConcernsStore(key) ==> quotes == old(quotes) && favorites == old(favorites)
    {
      if key == Some(StorageKey) {
        LoadQuotes();
      }
    }

    /** Saves through the store, then reloads; a write error that escapes the
        store escapes here too, before the reload. */
    method SaveQuote(quote: string, author: Option<string>, language: Language,
                     id: string, now: int, first: WriteOutcome, retry: WriteOutcome, isFavorite: bool := false)
      returns (r: Result<(), WriteOutcome>)
      modifies this, store
      ensures var e := SaveEffect(old(store.storage), quote, author, language, isFavorite, id, now, first, retry);
        && store.storage == e.stored
        && (r.Success? <==> e.outcome.Success?)
        && (r.Failure? ==> r.error == e.outcome.error)
      ensures r.Success? ==> InSync()
      ensures r.Failure? ==> quotes == old(quotes) && favorites == old(favorites)
    {
      var saved := store.Save(quote, author, language, id, now, first, retry, isFavorite);
      if saved.Failure? {
        return Failure(saved.error);
      }
      LoadQuotes();
      r := Success(());
    }

    method ToggleFavorite(id: string, first: WriteOutcome, retry: WriteOutcome)
      returns (r: Result<(), WriteOutcome>)
      modifies this, store
      ensures Effect(store.storage, r) == ToggleEffect(old(store.storage), id, first, retry)
      ensures r.Success? ==> InSync()
      ensures r.Failure? ==> quotes == old(quotes) && favorites == old(favorites)
    {
      r := store.ToggleFavorite(id, first, retry);
      if r.Success? {
        LoadQuotes();
      }
    }

    method DeleteQuote(id: string, first: WriteOutcome, retry: WriteOutcome)
      returns (r: Result<(), WriteOutcome>)
      modifies this, store
      ensures Effect(store.storage, r) == DeleteEffect(old(store.storage), id, first, retry)
      ensures r.Success? ==> InSync()
      ensures r.Failure? ==> quotes == old(quotes) && favorites == old(favorites)
    {
      r := store.Delete(id, first, retry);
      if r.Success? {
        LoadQuotes();
      }
    }

    method ClearAll()
      modifies this, store
      ensures store.storage == Absent
      ensures quotes == [] && favorites == [] && InSync()
    {
      store.ClearAll();
      LoadQuotes();
    }

    /** Asks the store, not the view. */
    method IsQuoteSaved(quote: string) returns (b: bool)
      ensures b <==> exists q :: q in Decode(store.storage) && q.quote == quote
    {
      b := store.Exists(quote);
    }

    /** Asks the store, not the view. */
    method IsQuoteFavorited(quote: string) returns (b: bool)
      ensures var qs := Decode(store.storage);
        b <==> exists i :: 0 <= i < |qs| && qs[i].quote == quote && qs[i].isFavorite &&
                          forall j :: 0 <= j < i ==> qs[j].quote != quote
    {
      b := store.IsFavorited(quote);
    }
  }
}
