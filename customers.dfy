/** The customer records of the registration form and the three pure
    transforms the form applies to its list of customers: replace by id
    (the edit branch of submit), mark deleted by id (the soft delete), and
    the filter that decides which records become table rows. */
module Customers {

  /** One customer record as the API sends it. The optional `deleted` flag
      of the API record (`ClientesProps`) is a bool here: an absent flag reads as false. */
  datatype Customer = Customer(
    id: string,
    nome: string,
    email: string,
    telefone: string,
    cidade: string,
    deleted: bool)

  /** True when some record of `us` carries identifier `id`. */
  predicate HasId(us: seq<Customer>, id: string)
  {
    exists i :: 0 <= i < |us| && us[i].id == id
  }

  /** `users.map(u => u.id === id ? r : u)`: every record whose id matches is
      replaced by `r`, every other record stays where it is. */
  function ReplaceById(us: seq<Customer>, id: string, r: Customer): (out: seq<Customer>)
    ensures |out| == |us|
    ensures forall i :: 0 <= i < |us| && us[i].id == id ==> out[i] == r
    ensures forall i :: 0 <= i < |us| && us[i].id != id ==> out[i] == us[i]
  {
    if us == [] then []
    else [if us[0].id == id then r else us[0]] + ReplaceById(us[1..], id, r)
  }

  /** `users.map(u => u.id === id ? {...u, deleted: true} : u)`: every record
      whose id matches keeps all its fields and gets the flag set; every
      other record stays as it is. */
  function MarkDeleted(us: seq<Customer>, id: string): (out: seq<Customer>)
    ensures |out| == |us|
    ensures forall i :: 0 <= i < |us| && us[i].id == id ==> out[i] == us[i].(deleted := true)
    ensures forall i :: 0 <= i < |us| && us[i].id != id ==> out[i] == us[i]
  {
    if us == [] then []
    else [if us[0].id == id then us[0].(deleted := true) else us[0]] + MarkDeleted(us[1..], id)
  }

  /** `users.filter(u => !u.deleted)`: the records the table shows. */
  function Visible(us: seq<Customer>): (out: seq<Customer>)
    ensures |out| <= |us|
    ensures forall c :: c in out <==> c in us && !c.deleted
  {
    if us == [] then []
    else (if us[0].deleted then [] else [us[0]]) + Visible(us[1..])
  }

  /** The filter keeps list order: filtering a concatenation is the
      concatenation of the filtered parts. Together with the one-record case
      below this pins Visible down as the order-preserving filter. */
  lemma {:induction false} VisibleAppend(a: seq<Customer>, b: seq<Customer>)
    ensures Visible(a + b) == Visible(a) + Visible(b)
  {
    if a == [] {
      assert a + b == b;
    } else {
      assert (a + b)[1..] == a[1..] + b;
      VisibleAppend(a[1..], b);
    }
  }

  /** A single record becomes a row exactly when it is not deleted. */
  lemma VisibleSingle(c: Customer)
    ensures Visible([c]) == if c.deleted then [] else [c]
  {
  }

  /** A list in which nothing is deleted is shown in full, so a freshly
      loaded list of N records gives N rows. */
  lemma {:induction false} VisibleAllShown(us: seq<Customer>)
    requires forall i :: 0 <= i < |us| ==> !us[i].deleted
    ensures Visible(us) == us
  {
    if us != [] {
      VisibleAllShown(us[1..]);
    }
  }

  /** Appending a record (the create branch) adds at most that record, at
      the end of the rows; the rows before it are unchanged. */
  lemma AppendRows(us: seq<Customer>, c: Customer)
    ensures Visible(us + [c]) == Visible(us) + (if c.deleted then [] else [c])
  {
    VisibleAppend(us, [c]);
    VisibleSingle(c);
  }

  /** Deleting the same id twice gives the same list as deleting it once. */
  lemma MarkDeletedIdempotent(us: seq<Customer>, id: string)
    ensures MarkDeleted(MarkDeleted(us, id), id) == MarkDeleted(us, id)
  {
  }

  /** Deleting an id that no record carries leaves the list unchanged. */
  lemma MarkDeletedAbsent(us: seq<Customer>, id: string)
    requires !HasId(us, id)
    ensures MarkDeleted(us, id) == us
  {
  }

  /** After a soft delete no row carries the deleted id, while the list
      still holds a record with that id at every position that had one. */
  lemma DeleteHidesRows(us: seq<Customer>, id: string)
    ensures forall c :: c in Visible(MarkDeleted(us, id)) ==> c.id != id
    ensures forall i :: 0 <= i < |us| ==> MarkDeleted(us, id)[i].id == us[i].id
    ensures HasId(us, id) <==> HasId(MarkDeleted(us, id), id)
  {
  }

  /** Deleting an id leaves the rows of every other id as they were: the
      rows after the delete are the old rows without those carrying `id`. */
  lemma {:induction false} DeleteRows(us: seq<Customer>, id: string)
    ensures Visible(MarkDeleted(us, id)) == Without(Visible(us), id)
  {
    if us != [] {
      DeleteRows(us[1..], id);
      assert MarkDeleted(us, id)[1..] == MarkDeleted(us[1..], id);
      var out := MarkDeleted(us, id);
      assert out == [out[0]] + out[1..];
      VisibleAppend([out[0]], out[1..]);
      VisibleSingle(out[0]);
      assert us == [us[0]] + us[1..];
      VisibleAppend([us[0]], us[1..]);
      VisibleSingle(us[0]);
      WithoutAppend(Visible([us[0]]), Visible(us[1..]), id);
    }
  }

  /** The records of `us` whose id differs from `id`, in order. */
  function Without(us: seq<Customer>, id: string): (out: seq<Customer>)
    ensures forall c :: c in out <==> c in us && c.id != id
  {
    if us == [] then []
    else (if us[0].id == id then [] else [us[0]]) + Without(us[1..], id)
  }

  /** Dropping an id distributes over concatenation. */
  lemma {:induction false} WithoutAppend(a: seq<Customer>, b: seq<Customer>, id: string)
    ensures Without(a + b, id) == Without(a, id) + Without(b, id)
  {
    if a == [] {
      assert a + b == b;
    } else {
      assert (a + b)[1..] == a[1..] + b;
      WithoutAppend(a[1..], b, id);
    }
  }

  /** Replacing an id that no record carries leaves the list unchanged. */
  lemma ReplaceByIdAbsent(us: seq<Customer>, id: string, r: Customer)
    requires !HasId(us, id)
    ensures ReplaceById(us, id, r) == us
  {
  }

  /** The replacement record of the edit branch carries no `deleted` field,
      so a record that was soft-deleted while it was being edited is shown
      again once the edit is submitted. */
  lemma EditResurrectsDeleted(us: seq<Customer>, id: string, r: Customer)
    requires HasId(us, id)
    requires !r.deleted
    ensures r in Visible(ReplaceById(MarkDeleted(us, id), id, r))
    ensures forall c :: c in Visible(MarkDeleted(us, id)) ==> c.id != id
  {
  }
}
