/** The saved list: the "save" button of a shown result toggles it in the
    list, and the "remove" button of a saved entry takes it out. The list is
    read from and written back to storage around each operation; here it is
    passed in and returned. */
module Saved {
  import opened Records
  import opened Seqs

  predicate HasId(saved: seq<Record>, id: string) {
    exists i | 0 <= i < |saved| :: saved[i].id == id
  }

  function OtherId(id: string): Record -> bool {
    (x: Record) => x.id != id
  }

  /** The list without the entries that carry `id`. */
  function Remove(saved: seq<Record>, id: string): (next: seq<Record>)
    ensures !HasId(next, id)
    ensures IsSubseq(next, saved)
    ensures forall i | 0 <= i < |saved| && saved[i].id != id :: saved[i] in next
    ensures forall i | 0 <= i < |next| :: next[i] in saved
    ensures forall x: Record :: x.id != id ==> multiset(next)[x] == multiset(saved)[x]
  {
    FilterSubseq(saved, OtherId(id));
    forall x: Record | x.id != id ensures multiset(Filter(saved, OtherId(id)))[x] == multiset(saved)[x] {
      FilterCount(saved, OtherId(id), x);
    }
    Filter(saved, OtherId(id))
  }

  /** Removing an id that is not in the list changes nothing. */
  lemma RemoveAbsent(saved: seq<Record>, id: string)
    requires !HasId(saved, id)
    ensures Remove(saved, id) == saved
  {
    forall x | x in saved ensures OtherId(id)(x) {
      var i :| 0 <= i < |saved| && saved[i] == x;
    }
    FilterAll(saved, OtherId(id));
  }

  /** Toggling `r`: when some entry has its id, every entry with that id
      goes; otherwise `r` is appended at the end. */
  function Toggle(saved: seq<Record>, r: Record): (next: seq<Record>)
    ensures HasId(next, r.id) <==> !HasId(saved, r.id)
    ensures !HasId(saved, r.id) ==> next == saved + [r]
    ensures HasId(saved, r.id) ==> next == Remove(saved, r.id)
  {
    if HasId(saved, r.id) then Remove(saved, r.id)
    else
      assert (saved + [r])[|saved|].id == r.id;
      saved + [r]
  }

  /** Saving a record and then un-saving it restores the list. */
  lemma ToggleTwice(saved: seq<Record>, r: Record)
    requires !HasId(saved, r.id)
    ensures Toggle(Toggle(saved, r), r) == saved
  {
    FilterAppend(saved, [r], OtherId(r.id));
    RemoveAbsent(saved, r.id);
    assert [r][1..] == [];
    assert Filter([r], OtherId(r.id)) == [];
  }

  /** The "save" button of the shown result with id `id`: the first shown
      record with that id is toggled; an id no shown record has changes
      nothing. */
  function SaveClicked(saved: seq<Record>, shown: seq<Record>, id: string): (next: seq<Record>)
    ensures HasId(shown, id) ==> (HasId(next, id) <==> !HasId(saved, id))
    ensures !HasId(shown, id) ==> next == saved
    ensures HasId(shown, id) ==>
      exists k | 0 <= k < |shown| && shown[k].id == id && (forall j | 0 <= j < k :: shown[j].id != id) ::
        next == Toggle(saved, shown[k])
  {
    var k := FindIndex(shown, (x: Record) => x.id == id);
    if k < 0 then saved else Toggle(saved, shown[k])
  }

  /** The "remove" button of the saved entry with id `id`: the list is
      searched for the entry, and when it is there every entry with that id
      is taken out. */
  method RemoveClicked(saved: seq<Record>, id: string) returns (next: seq<Record>)
    ensures next == Remove(saved, id)
    ensures !HasId(saved, id) ==> next == saved
  {
    var i := 0;
    var found := false;
    while i < |saved| && !found
      invariant 0 <= i <= |saved|
      invariant found ==> 0 < i && saved[i - 1].id == id
      invariant !found ==> forall j | 0 <= j < i :: saved[j].id != id
    {
      if saved[i].id == id {
        found := true;
      }
      i := i + 1;
    }
    if !found {
      RemoveAbsent(saved, id);
      next := saved;
    } else {
      next := Remove(saved, id);
    }
  }
}
