/**
 * The list of checked task ids (`selectedTasks`) and the checkbox toggle
 * `handleSelectTask` (src/App.jsx lines 90-96).
 */
module Selection {
  import Seqs

  /** The filter test `id => id !== target`. */
  function Other(target: int): int -> bool
  {
    x => x != target
  }

  /** The filter test `id => id === target`, its complement. */
  function Same(target: int): int -> bool
  {
    x => x == target
  }

  /** No id occurs twice. */
  predicate NoDuplicates(s: seq<int>)
  {
    forall i, j :: 0 <= i < j < |s| ==> s[i] != s[j]
  }

  /**
   * A checked id is unchecked (every occurrence is dropped); an unchecked one
   * is appended at the end. Every other id keeps its membership.
   */
  function Toggle(selected: seq<int>, id: int): (r: seq<int>)
    ensures id in r <==> id !in selected
    ensures forall x :: x != id ==> (x in r <==> x in selected)
    ensures id !in selected ==> r == selected + [id]
  {
    if id in selected then Seqs.Filter(selected, Other(id)) else selected + [id]
  }

  /**
   * Unchecking keeps the remaining ids in their order and removes exactly the
   * occurrences of the id (one, when the selection has no duplicates).
   */
  lemma UncheckKeepsOrder(selected: seq<int>, id: int)
    requires id in selected
    ensures Seqs.IsSubsequence(Toggle(selected, id), selected)
    ensures multiset(Toggle(selected, id)) + multiset(Seqs.Filter(selected, Same(id))) == multiset(selected)
    ensures NoDuplicates(selected) ==> |Toggle(selected, id)| == |selected| - 1
  {
    Seqs.FilterIsSubsequence(selected, Other(id));
    Seqs.FilterSplit(selected, Other(id), Same(id));
    if NoDuplicates(selected) {
      var k :| 0 <= k < |selected| && selected[k] == id;
      SplitAt(selected, k);
    }
  }

  /**
   * In a selection without duplicates, unchecking the id at position `k`
   * leaves the ids before it followed by the ids after it.
   */
  lemma SplitAt(selected: seq<int>, k: int)
    requires NoDuplicates(selected) && 0 <= k < |selected|
    ensures Toggle(selected, selected[k]) == selected[..k] + selected[k + 1..]
  {
    var id := selected[k];
    var a, b := selected[..k], selected[k + 1..];
    Seqs.SplitAround(selected, k);
    OnlyAtK(selected, k);
    DropAbsent(a, id);
    DropAbsent(b, id);
    assert Seqs.Filter([id], Other(id)) == [];
    Seqs.FilterConcat(a, [id], Other(id));
    assert Seqs.Filter(a + [id], Other(id)) == a;
    Seqs.FilterConcat(a + [id], b, Other(id));
    assert Toggle(selected, id) == Seqs.Filter(selected, Other(id));
  }

  /** In a list without duplicates, the id at position `k` occurs neither before nor after it. */
  lemma OnlyAtK(s: seq<int>, k: int)
    requires NoDuplicates(s) && 0 <= k < |s|
    ensures s[k] !in s[..k] && s[k] !in s[k + 1..]
  {
    forall j | k < j < |s| ensures s[j] != s[k] {
    }
    var after := s[k + 1..];
    assert forall i :: 0 <= i < |after| ==> after[i] == s[k + 1 + i];
  }

  /** Unchecking an id that is not there changes nothing. */
  lemma DropAbsent(s: seq<int>, id: int)
    requires id !in s
    ensures Seqs.Filter(s, Other(id)) == s
  {
    forall i | 0 <= i < |s| ensures Other(id)(s[i]) {
      assert s[i] in s;
    }
    Seqs.FilterAllPass(s, Other(id));
  }

  /** Checking an unchecked id and unchecking it again restores the selection exactly. */
  lemma {:induction false} ToggleTwiceFromUnchecked(selected: seq<int>, id: int)
    requires id !in selected
    ensures Toggle(Toggle(selected, id), id) == selected
  {
    assert id in selected + [id];
    Seqs.FilterConcat(selected, [id], Other(id));
    DropAbsent(selected, id);
    assert Seqs.Filter([id], Other(id)) == [];
  }

  /**
   * Unchecking a checked id and checking it again, in a selection without
   * duplicates, restores the same ids, moved so that this one is last: the
   * selection is back exactly when the id was already the last one.
   */
  lemma ToggleTwiceFromChecked(selected: seq<int>, k: int)
    requires NoDuplicates(selected) && 0 <= k < |selected|
    ensures var r := Toggle(Toggle(selected, selected[k]), selected[k]);
      && r == selected[..k] + selected[k + 1..] + [selected[k]]
      && multiset(r) == multiset(selected)
      && (r == selected <==> k == |selected| - 1)
  {
    var id := selected[k];
    SplitAt(selected, k);
    OnlyAtK(selected, k);
    var once := selected[..k] + selected[k + 1..];
    assert id !in once;
    Seqs.SplitAround(selected, k);
    if k == |selected| - 1 {
      assert selected[k + 1..] == [];
    }
  }

  /** The toggle never introduces a duplicate. */
  lemma ToggleKeepsNoDuplicates(selected: seq<int>, id: int)
    requires NoDuplicates(selected)
    ensures NoDuplicates(Toggle(selected, id))
  {
    if id in selected {
      var k :| 0 <= k < |selected| && selected[k] == id;
      SplitAt(selected, k);
      RemoveAtKeepsNoDuplicates(selected, k);
    } else {
      var r := selected + [id];
      forall i, j | 0 <= i < j < |r| ensures r[i] != r[j] {
        if j == |selected| {
          assert r[i] == selected[i];
        }
      }
    }
  }

  lemma RemoveAtKeepsNoDuplicates(s: seq<int>, k: int)
    requires NoDuplicates(s) && 0 <= k < |s|
    ensures NoDuplicates(s[..k] + s[k + 1..])
  {
    var r := s[..k] + s[k + 1..];
    assert |r| == |s| - 1;
    forall i | 0 <= i < |r| ensures r[i] == s[if i < k then i else i + 1] {
    }
    forall i, j | 0 <= i < j < |r| ensures r[i] != r[j] {
      var i' := if i < k then i else i + 1;
      var j' := if j < k then j else j + 1;
      assert i' < j';
      assert r[i] == s[i'];
      assert r[j] == s[j'];
    }
  }
}
