/**
 * The selected-tags list of the incident report. Both the tag picker
 * (src/incident/incidentform/IncidentTags.js) and the form that owns the report
 * (src/ItemForm.js) update their copy with the same rule: a tag already in the
 * list is filtered out, any other tag is appended.
 */
module TagList {
  import opened Seqs

  /** The tag vocabulary offered as badges. Both components declare this same list. */
  const PredefinedTags: seq<string> := [
    "Wallets", "Keys", "Phones", "Bags", "Laptops", "Watches", "Glasses",
    "Jewelry", "ID Cards", "Credit/Debit Cards", "Clothing Items", "Umbrellas",
    "Headphones/Earbuds", "Shoes", "Cameras", "Tablets", "Books", "Power Banks",
    "Documents", "Water Bottles", "Television"
  ]

  /** The vocabulary has 21 entries and no two are equal. */
  lemma PredefinedTagsDistinct()
    ensures |PredefinedTags| == 21
    ensures NoDup(PredefinedTags)
  {
    forall i, j | 0 <= i < j < |PredefinedTags|
      ensures PredefinedTags[i] != PredefinedTags[j]
    {
      var a, b := PredefinedTags[i], PredefinedTags[j];
      assert a[0] != b[0] || |a| != |b| || a[1] != b[1] || a[2] != b[2];
    }
  }

  /** The filter predicate `t => t !== tag`. */
  function Differs(tag: string): string -> bool {
    t => t != tag
  }

  /** `tags.filter((t) => t !== tag)`. */
  function RemoveAll(tags: seq<string>, tag: string): (r: seq<string>)
    ensures tag !in r
    ensures forall t :: t != tag ==> (t in r <==> t in tags)
    ensures forall t :: t != tag ==> multiset(r)[t] == multiset(tags)[t]
  {
    FilterCounts(tags, Differs(tag));
    Filter(tags, Differs(tag))
  }

  /**
   * `tags.includes(tag) ? tags.filter((t) => t !== tag) : [...tags, tag]`.
   * Membership of `tag` flips; every other tag keeps its place relative to the
   * others (erasing `tag` from both lists gives the same list); an absent tag
   * goes to the end.
   */
  function Toggle(tags: seq<string>, tag: string): (r: seq<string>)
    ensures tag in r <==> tag !in tags
    ensures tag in tags ==> multiset(r)[tag] == 0
    ensures RemoveAll(r, tag) == RemoveAll(tags, tag)
    ensures tag !in tags ==> |r| == |tags| + 1 && r[..|tags|] == tags && r[|tags|] == tag
  {
    if tag in tags then
      RemoveAllIdempotent(tags, tag);
      RemoveAll(tags, tag)
    else
      RemoveAllAppendSelf(tags, tag);
      tags + [tag]
  }

  lemma RemoveAllIdempotent(tags: seq<string>, tag: string)
    ensures RemoveAll(RemoveAll(tags, tag), tag) == RemoveAll(tags, tag)
  {
    var r := RemoveAll(tags, tag);
    assert forall i :: 0 <= i < |r| ==> r[i] != tag by {
      forall i | 0 <= i < |r| ensures r[i] != tag {
        assert r[i] in r;
      }
    }
    FilterKeepsAll(r, Differs(tag));
  }

  lemma RemoveAllAbsent(tags: seq<string>, tag: string)
    requires tag !in tags
    ensures RemoveAll(tags, tag) == tags
  {
    assert forall i :: 0 <= i < |tags| ==> tags[i] != tag by {
      forall i | 0 <= i < |tags| ensures tags[i] != tag {
        assert tags[i] in tags;
      }
    }
    FilterKeepsAll(tags, Differs(tag));
  }

  lemma RemoveAllAppendSelf(tags: seq<string>, tag: string)
    ensures RemoveAll(tags + [tag], tag) == RemoveAll(tags, tag)
  {
    FilterAppend(tags, [tag], Differs(tag));
    assert Filter([tag], Differs(tag)) == [];
  }

  /** Toggling keeps a duplicate-free list duplicate-free. */
  lemma ToggleKeepsNoDup(tags: seq<string>, tag: string)
    requires NoDup(tags)
    ensures NoDup(Toggle(tags, tag))
  {
    if tag in tags {
      FilterKeepsNoDup(tags, Differs(tag));
    } else {
      var r := Toggle(tags, tag);
      forall i, j | 0 <= i < j < |r| ensures r[i] != r[j] {
        if j == |tags| {
          assert r[i] == tags[i];
        } else {
          assert r[i] == tags[i] && r[j] == tags[j];
        }
      }
    }
  }

  /** Toggling an absent tag twice restores the list exactly. */
  lemma ToggleTwiceRestores(tags: seq<string>, tag: string)
    requires tag !in tags
    ensures Toggle(Toggle(tags, tag), tag) == tags
  {
    RemoveAllAppendSelf(tags, tag);
    RemoveAllAbsent(tags, tag);
  }

  /** The list after a series of toggles, applied in order. */
  function ToggleAll(tags: seq<string>, clicks: seq<string>): seq<string>
    decreases |clicks|
  {
    if clicks == [] then tags
    else ToggleAll(Toggle(tags, clicks[0]), clicks[1..])
  }

  /**
   * Starting from an empty list, any series of toggles of vocabulary tags leaves a
   * duplicate-free list drawn from the vocabulary.
   */
  lemma {:induction false} ToggleAllWithinVocabulary(tags: seq<string>, clicks: seq<string>)
    requires NoDup(tags)
    requires forall t :: t in tags ==> t in PredefinedTags
    requires forall c :: c in clicks ==> c in PredefinedTags
    ensures NoDup(ToggleAll(tags, clicks))
    ensures forall t :: t in ToggleAll(tags, clicks) ==> t in PredefinedTags
    decreases |clicks|
  {
    if clicks != [] {
      ToggleKeepsNoDup(tags, clicks[0]);
      ToggleAllWithinVocabulary(Toggle(tags, clicks[0]), clicks[1..]);
    }
  }

  /**
   * A duplicate-free list of vocabulary tags holds at most all 21 of them: the
   * selection can never grow past the vocabulary.
   */
  lemma SelectionBounded(tags: seq<string>)
    requires NoDup(tags)
    requires forall t :: t in tags ==> t in PredefinedTags
    ensures |tags| <= |PredefinedTags|
  {
    var st := set i | 0 <= i < |tags| :: tags[i];
    var sv := set i | 0 <= i < |PredefinedTags| :: PredefinedTags[i];
    forall x | x in st ensures x in sv {
      var i :| 0 <= i < |tags| && tags[i] == x;
      assert tags[i] in tags;
      var k :| 0 <= k < |PredefinedTags| && PredefinedTags[k] == x;
    }
    DistinctCard(tags);
    SetOfSeqCard(PredefinedTags);
    assert |st| <= |sv| by {
      SubsetCard(st, sv);
    }
  }

  lemma SubsetCard(a: set<string>, b: set<string>)
    requires a <= b
    ensures |a| <= |b|
  {
    assert b == a + (b - a);
  }

  lemma {:induction false} SetOfSeqCard(s: seq<string>)
    ensures |set i | 0 <= i < |s| :: s[i]| <= |s|
  {
    if s != [] {
      var n := |s| - 1;
      SetOfSeqCard(s[..n]);
      assert (set i | 0 <= i < |s| :: s[i]) == (set i | 0 <= i < n :: s[..n][i]) + {s[n]};
    }
  }

  lemma {:induction false} DistinctCard(s: seq<string>)
    requires NoDup(s)
    ensures |set i | 0 <= i < |s| :: s[i]| == |s|
  {
    if s != [] {
      var n := |s| - 1;
      DistinctCard(s[..n]);
      var prefix := set i | 0 <= i < n :: s[..n][i];
      assert (set i | 0 <= i < |s| :: s[i]) == prefix + {s[n]};
      assert s[n] !in prefix;
    }
  }
}
