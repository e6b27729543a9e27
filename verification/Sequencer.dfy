/** The boundary between string ids and the book: assign internal ids, keep both id maps, forward. */
module Sequencing {
  import opened PriceTime
  import opened History
  import opened LinkedBook

  datatype SeqState = SeqState(nextID: nat, idMap: map<string, nat>, revMap: map<nat, string>, view: View<nat>)

  const INITIAL := SeqState(1, map[], map[], View([], []))

  function SeqAdd(s: SeqState, ext: string, side: Side, typ: OrderType, price: int, qty: int): (SeqState, Added<nat>) {
    var id := s.nextID;
    var a := AddOrder(s.view, Order(id, side, typ, price, qty, 0));
    (SeqState(id + 1, s.idMap[ext := id], s.revMap[id := ext], a.view), a)
  }

  function SeqCancel(s: SeqState, ext: string): (SeqState, bool) {
    if ext !in s.idMap then (s, false)
    else
      var r := CancelOrder(s.view, s.idMap[ext]);
      (s.(view := r.0), r.1)
  }

  /** An id nobody was given maps to the empty string. */
  function ExternalID(revMap: map<nat, string>, id: nat): string {
    if id in revMap then revMap[id] else ""
  }

  ghost predicate SeqOk(s: SeqState) {
    && Ok(s.view)
    && (forall id :: id in s.revMap ==> 0 < id < s.nextID)
    && (forall id :: s.view.Rests(id) ==> id in s.revMap)
    && (forall ext :: ext in s.idMap ==> s.idMap[ext] in s.revMap && s.revMap[s.idMap[ext]] == ext)
  }

  /** No external id was handed in twice: the two maps are inverse to each other. */
  ghost predicate OneToOne(s: SeqState) {
    forall id :: id in s.revMap ==> s.revMap[id] in s.idMap && s.idMap[s.revMap[id]] == id
  }

  lemma InitialOk()
    ensures SeqOk(INITIAL) && OneToOne(INITIAL)
  {
  }

  lemma SeqAddKeeps(s: SeqState, ext: string, side: Side, typ: OrderType, price: int, qty: int)
    requires SeqOk(s) && s.nextID > 0
    ensures SeqOk(SeqAdd(s, ext, side, typ, price, qty).0)
    ensures OneToOne(s) && ext !in s.idMap ==> OneToOne(SeqAdd(s, ext, side, typ, price, qty).0)
  {
    var o := Order(s.nextID, side, typ, price, qty, 0);
    AddKeepsOk(s.view, o);
    forall id | AddOrder(s.view, o).view.Rests(id)
      ensures s.view.Rests(id) || id == s.nextID
    {
      StepRests(s.view, Submit(o), id);
    }
  }

  lemma SeqCancelKeeps(s: SeqState, ext: string)
    requires SeqOk(s)
    ensures SeqOk(SeqCancel(s, ext).0)
    ensures OneToOne(s) ==> OneToOne(SeqCancel(s, ext).0)
  {
    if ext in s.idMap {
      CancelKeepsOk(s.view, s.idMap[ext]);
      forall id | CancelOrder(s.view, s.idMap[ext]).0.Rests(id)
        ensures s.view.Rests(id)
      {
        StepRests(s.view, Cmd.Cancel(s.idMap[ext]), id);
      }
    }
  }

  class Sequencer {
    const book: Book
    var idMap: map<string, nat>
    var revMap: map<nat, string>
    var nextID: nat

    ghost function State(): SeqState
      reads this, book
    {
      SeqState(nextID, idMap, revMap, book.Contents())
    }

    ghost predicate Valid()
      reads this, book, book.Repr
    {
      book.Valid() && this !in book.Repr && nextID > 0 && SeqOk(State())
    }

    /** Orders the engine can still take before its arena runs out. */
    ghost function Room(): int
      reads book.arena
    {
      |book.arena.slab| - book.arena.cursor
    }

    constructor (capacity: nat)
      ensures Valid() && fresh(book) && fresh(book.Repr) && fresh(book.arena)
      ensures State() == INITIAL && Room() == capacity
    {
      hide SeqOk, Book.Valid;
      book := new Book(capacity);
      idMap, revMap, nextID := map[], map[], 1;
      InitialOk();
    }

    method Add(extID: string, side: Side, typ: OrderType, price: int, qty: int)
      returns (fills: seq<Fill<nat>>, rests: bool, id: nat)
      requires Valid() && Room() > 0 && (typ == Limit ==> price > 0)
      modifies this, book, book.Repr
      ensures Valid() && old(book.Repr) <= book.Repr && fresh(book.Repr - old(book.Repr))
      ensures Room() == old(Room()) - 1 && id == old(nextID)
      ensures (State(), Added(book.Contents(), fills, rests)) == SeqAdd(old(State()), extID, side, typ, price, qty)
    {
      hide Ok, AddOrder, Book.Valid;
      SeqAddKeeps(State(), extID, side, typ, price, qty);
      id := nextID;
      FreshInBook(book, State());
      nextID := nextID + 1;
      idMap := idMap[extID := id];
      revMap := revMap[id := extID];
      fills, rests := book.Add(Order(id, side, typ, price, qty, 0));
    }

    method Cancel(extID: string) returns (r: CancelResult)
      requires Valid()
      modifies this, book, book.Repr
      ensures Valid() && book.Repr == old(book.Repr) && Room() == old(Room())
      ensures (State(), r == CancelOK) == SeqCancel(old(State()), extID)
    {
      hide Ok, CancelOrder, Book.Valid;
      SeqCancelKeeps(State(), extID);
      if extID !in idMap {
        return CancelNotFound;
      }
      r := book.Cancel(idMap[extID]);
    }

    method Reset()
      requires Valid()
      modifies this, book, book.Repr
      ensures Valid() && book.Repr == old(book.Repr)
      ensures State() == INITIAL && Room() == |book.arena.slab|
    {
      hide SeqOk, Book.Valid;
      InitialOk();
      idMap := map[];
      revMap := map[];
      nextID := 1;
      book.Reset();
    }
  }

  /** The next internal id is unknown to the book's index. */
  lemma FreshInBook(book: Book, s: SeqState)
    requires book.Valid() && SeqOk(s) && s.view == book.Contents()
    ensures s.nextID !in book.orders
  {
    book.IndexExact(s.nextID);
  }
}
