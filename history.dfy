/**
  The history ledger of App.tsx: a most-recent-first list of archived cards,
  never longer than 15. `pushToHistory` prepends one item and keeps the first
  15 (`[newItem, ...prev].slice(0, 15)`), and refuses starter or empty texts.
 */
module History {
  import opened Card

  /** The bound of `.slice(0, 15)`. */
  const MaxHistory: nat := 15

  function Min(a: int, b: int): int
  {
    if a <= b then a else b
  }

  /** `s.slice(0, 15)`: the first MaxHistory entries, or all of them when there are fewer. */
  function Keep<T>(s: seq<T>): (r: seq<T>)
    ensures |r| == Min(|s|, MaxHistory)
    ensures r == s[..|r|]
  {
    if |s| <= MaxHistory then s else s[..MaxHistory]
  }

  /**
    `[newItem, ...prev].slice(0, 15)`: the new item first, then the previous
    ledger's first 14 entries in their old order.
   */
  function Prepend(h: seq<HistoryItem>, item: HistoryItem): (r: seq<HistoryItem>)
    ensures |r| == Min(|h| + 1, MaxHistory)
    ensures r[0] == item
    ensures r[1..] == h[..|r| - 1]
  {
    Keep([item] + h)
  }

  /** The ledger invariant: never more than 15 entries. */
  predicate WithinBound(h: seq<HistoryItem>)
  {
    |h| <= MaxHistory
  }

  /**
    The update `pushToHistory` applies to the ledger for the card currently
    shown (`text`, `category`, `variant`), with the clock reading `id`.
   */
  function Archived(h: seq<HistoryItem>, text: string, category: Category, variant: int, id: nat): (r: seq<HistoryItem>)
    ensures !Archivable(text) ==> r == h
    ensures Archivable(text) ==>
      && |r| == Min(|h| + 1, MaxHistory)
      && r[0] == HistoryItem(id, text, category, variant)
      && r[1..] == h[..|r| - 1]
    ensures |r| <= |h| + 1
    ensures WithinBound(h) ==> WithinBound(r)
  {
    if Archivable(text) then Prepend(h, HistoryItem(id, text, category, variant)) else h
  }

  /** No category's starter text is ever archived, whichever category the card belongs to. */
  lemma StarterNeverArchived(h: seq<HistoryItem>, starterOf: Category, category: Category, variant: int, id: nat)
    ensures Archived(h, InitialText(starterOf), category, variant, id) == h
  {
  }

  /** The empty text (falsy in `compliment && ...`) is never archived either. */
  lemma EmptyNeverArchived(h: seq<HistoryItem>, category: Category, variant: int, id: nat)
    ensures Archived(h, "", category, variant, id) == h
  {
  }

  /** Prepending the items one at a time, oldest first: what repeated `pushToHistory` calls build. */
  function PrependAll(h: seq<HistoryItem>, items: seq<HistoryItem>): (r: seq<HistoryItem>)
    decreases |items|
  {
    if items == [] then h else PrependAll(Prepend(h, items[0]), items[1..])
  }

  function Reversed<T>(s: seq<T>): (r: seq<T>)
    ensures |r| == |s|
  {
    if s == [] then [] else Reversed(s[1..]) + [s[0]]
  }

  lemma {:induction false} ReversedAt<T>(s: seq<T>, k: nat)
    requires k < |s|
    ensures Reversed(s)[k] == s[|s| - 1 - k]
  {
    if k < |s| - 1 {
      ReversedAt(s[1..], k);
    }
  }

  /** Truncating early changes nothing: only the first 15 entries of the whole list ever matter. */
  lemma KeepAbsorbsInnerKeep<T>(a: seq<T>, b: seq<T>)
    ensures Keep(a + Keep(b)) == Keep(a + b)
  {
  }

  /** One induction step: the item prepended first ends up behind all the later ones. */
  lemma PrependStep(h: seq<HistoryItem>, x: HistoryItem, rest: seq<HistoryItem>)
    ensures Keep(Reversed(rest) + Prepend(h, x)) == Keep(Reversed([x] + rest) + h)
  {
  }

  /**
    Prepend-then-truncate, repeated, equals one prepend of all the items
    (newest first) followed by a single truncation.
   */
  lemma {:induction false} PrependAllIsOneTruncation(h: seq<HistoryItem>, items: seq<HistoryItem>)
    requires WithinBound(h)
    ensures PrependAll(h, items) == Keep(Reversed(items) + h)
    decreases |items|
  {
    if items == [] {
      assert Reversed(items) + h == h;
    } else {
      var x, rest := items[0], items[1..];
      assert items == [x] + rest;
      PrependAllIsOneTruncation(Prepend(h, x), rest);
      PrependStep(h, x, rest);
    }
  }

  /**
    Archiving n cards (n at most 15) keeps every one of them, newest first,
    in front of what was there before.
   */
  lemma NoArchivedCardLost(h: seq<HistoryItem>, items: seq<HistoryItem>, k: nat)
    requires WithinBound(h)
    requires k < |items| <= MaxHistory
    ensures |PrependAll(h, items)| == Min(|items| + |h|, MaxHistory)
    ensures PrependAll(h, items)[k] == items[|items| - 1 - k]
  {
    PrependAllIsOneTruncation(h, items);
    ReversedAt(items, k);
    assert (Reversed(items) + h)[k] == Reversed(items)[k];
  }

  /**
    Once 15 more cards have been archived, nothing of the earlier ledger is
    left: the result depends only on the 15 newest items.
   */
  lemma OlderEntriesUnrecoverable(h: seq<HistoryItem>, h': seq<HistoryItem>, items: seq<HistoryItem>)
    requires WithinBound(h) && WithinBound(h')
    requires |items| >= MaxHistory
    ensures PrependAll(h, items) == PrependAll(h', items)
    ensures PrependAll(h, items) == Reversed(items)[..MaxHistory]
  {
    PrependAllIsOneTruncation(h, items);
    PrependAllIsOneTruncation(h', items);
    assert (Reversed(items) + h)[..MaxHistory] == Reversed(items)[..MaxHistory];
    assert (Reversed(items) + h')[..MaxHistory] == Reversed(items)[..MaxHistory];
  }
}
