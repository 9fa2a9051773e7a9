/**
 * The order in which the document store answers `orderBy("dateLost", "desc")`:
 * later dates first, where dates are the `YYYY-MM-DD` strings the report form
 * writes and strings compare code point by code point; documents with the same
 * date follow their ids, also descending (the store breaks ties by document
 * name in the direction of the last ordering). The "Items" collection is
 * modelled by its index: the documents in this order.
 */
module StoreOrder {
  import opened Wrappers
  import opened Values
  import opened Seqs

  /** Code-point lexicographic order: a proper prefix comes first. */
  predicate StrLess(a: string, b: string)
    decreases |a|
  {
    |b| > 0 && (|a| == 0 || a[0] < b[0] || (a[0] == b[0] && StrLess(a[1..], b[1..])))
  }

  lemma {:induction false} StrLessIrreflexive(a: string)
    ensures !StrLess(a, a)
    decreases |a|
  {
    if |a| > 0 {
      StrLessIrreflexive(a[1..]);
    }
  }

  lemma {:induction false} StrLessTransitive(a: string, b: string, c: string)
    requires StrLess(a, b) && StrLess(b, c)
    ensures StrLess(a, c)
    decreases |a|
  {
    if |a| > 0 && a[0] == b[0] && b[0] == c[0] {
      StrLessTransitive(a[1..], b[1..], c[1..]);
    }
  }

  lemma {:induction false} StrLessTotal(a: string, b: string)
    requires a != b
    ensures StrLess(a, b) || StrLess(b, a)
    decreases |a|
  {
    if |a| > 0 && |b| > 0 && a[0] == b[0] {
      assert a == [a[0]] + a[1..] && b == [b[0]] + b[1..];
      StrLessTotal(a[1..], b[1..]);
    }
  }

  /**
   * A document holding a string date. The model takes every document of
   * "Items" to be one, as the report form writes `dateLost` as a string.
   */
  predicate Orderable(d: Doc) {
    "dateLost" in d.data && d.data["dateLost"].Str?
  }

  function DateKey(d: Doc): string
    requires Orderable(d)
  {
    d.data["dateLost"].s
  }

  /** `a` is returned before `b` by the descending query. */
  predicate Before(a: Doc, b: Doc) {
    && Orderable(a) && Orderable(b)
    && (StrLess(DateKey(b), DateKey(a)) || (DateKey(a) == DateKey(b) && StrLess(b.id, a.id)))
  }

  lemma BeforeIrreflexive(a: Doc)
    ensures !Before(a, a)
  {
    if Orderable(a) {
      StrLessIrreflexive(DateKey(a));
      StrLessIrreflexive(a.id);
    }
  }

  lemma BeforeTransitive(a: Doc, b: Doc, c: Doc)
    requires Before(a, b) && Before(b, c)
    ensures Before(a, c)
  {
    if StrLess(DateKey(b), DateKey(a)) && StrLess(DateKey(c), DateKey(b)) {
      StrLessTransitive(DateKey(c), DateKey(b), DateKey(a));
    } else if StrLess(b.id, a.id) && StrLess(c.id, b.id) {
      StrLessTransitive(c.id, b.id, a.id);
    }
  }

  lemma BeforeAsymmetric(a: Doc, b: Doc)
    requires Before(a, b)
    ensures !Before(b, a)
  {
    if Before(b, a) {
      BeforeTransitive(a, b, a);
      BeforeIrreflexive(a);
    }
  }

  /** Two distinct orderable documents with distinct ids are always ordered one way or the other. */
  lemma BeforeTotal(a: Doc, b: Doc)
    requires Orderable(a) && Orderable(b) && a.id != b.id
    ensures Before(a, b) || Before(b, a)
  {
    if DateKey(a) != DateKey(b) {
      StrLessTotal(DateKey(a), DateKey(b));
    } else {
      StrLessTotal(a.id, b.id);
    }
  }

  /** An index: orderable documents, each strictly before the ones after it. */
  predicate Sorted(index: seq<Doc>) {
    && (forall i :: 0 <= i < |index| ==> Orderable(index[i]))
    && (forall i, j :: 0 <= i < j < |index| ==> Before(index[i], index[j]))
  }

  /** An index holds no document twice. */
  lemma SortedNoDup(index: seq<Doc>)
    requires Sorted(index)
    ensures NoDup(index)
  {
    forall i, j | 0 <= i < j < |index|
      ensures index[i] != index[j]
    {
      BeforeIrreflexive(index[i]);
    }
  }

  /** The documents a query may return: orderable ones, strictly after the cursor if there is one. */
  function AfterCursor(cursor: Option<Doc>): Doc -> bool {
    d => Orderable(d) && (cursor.None? || Before(cursor.value, d))
  }

  /** Without a cursor, a query sees the whole index. */
  lemma FromTopSeesAll(index: seq<Doc>)
    requires Sorted(index)
    ensures Filter(index, AfterCursor(None)) == index
  {
    FilterKeepsAll(index, AfterCursor(None));
  }

  /** With a cursor taken from the index, a query sees exactly the documents after it. */
  lemma AfterCursorIsSuffix(index: seq<Doc>, k: nat)
    requires Sorted(index)
    requires k < |index|
    ensures Filter(index, AfterCursor(Some(index[k]))) == index[k + 1..]
  {
    var keep := AfterCursor(Some(index[k]));
    var seen, rest := index[..k + 1], index[k + 1..];
    assert index == seen + rest;
    forall i | 0 <= i < |seen|
      ensures !keep(seen[i])
    {
      if i < k {
        BeforeAsymmetric(index[i], index[k]);
      } else {
        BeforeIrreflexive(index[k]);
      }
    }
    forall i | 0 <= i < |rest|
      ensures keep(rest[i])
    {
      assert rest[i] == index[k + 1 + i];
    }
    FilterKeepsNone(seen, keep);
    FilterKeepsAll(rest, keep);
    FilterAppend(seen, rest, keep);
  }
}
