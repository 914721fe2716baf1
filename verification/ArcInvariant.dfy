/** What every critical section of the ARC cache keeps, and what balancing achieves. */
module ArcInvariant {
  import opened Wrappers
  import opened ArcList
  import opened ArcModel

  lemma UnhashSound(b: Books, o: ArcObject)
    requires Sound(b) && o in b.objs && b.Hashed(o) && !b.objs[o].fetching
    ensures b.objs[o].refs > 0 && Sound(b.Unhash(o))
    ensures forall x :: x != o && b.Hashed(x) ==> b.Unhash(o).Hashed(x)
  {
    assert Fine(b.objs[o], true);
    var b' := b.Unhash(o);
    forall x | x in b'.objs ensures Fine(b'.objs[x], b'.Hashed(x)) {
      assert Fine(b.objs[x], b.Hashed(x));
      assert x != o && x.key == o.key ==> !b.Hashed(x);
    }
  }

  /** The lists after `o` moves from `w` to the head of `to`. */
  function Moved(l: Lists, o: ArcObject, w: Which, to: Which): Lists
  {
    Taken(l, o, w).Put(to, [o] + Taken(l, o, w).Get(to))
  }

  function Taken(l: Lists, o: ArcObject, w: Which): Lists
  {
    l.Put(w, Without(l.Get(w), o))
  }

  /** The lists with `o` at the head of `w`. */
  function Pushed(l: Lists, o: ArcObject, w: Which): Lists
  {
    l.Put(w, [o] + l.Get(w))
  }

  lemma MovedProper(l: Lists, o: ArcObject, w: Which, to: Which)
    requires l.Proper() && o in l.Get(w)
    ensures Moved(l, o, w, to).Proper() && Moved(l, o, w, to).All() == l.All()
  {
    TakeProper(l, w, o);
    WhereIs(l, o);
    PushProper(Taken(l, o, w), to, o);
  }

  /** `arc_move` of a listed object to a list. */
  lemma MoveTo(s: Cache, o: ArcObject, w: Which, to: Which)
    requires o in s.books.objs && s.books.objs[o].refs > 0 && !s.books.objs[o].locked
    requires s.lists.Where(o) == Some(w)
    ensures Move(s, o, Some(to)) ==
            s.(lists := Moved(s.lists, o, w, to), p := if w == to then s.p else Adapt(s, w))
  {
  }

  lemma MoveOut(s: Cache, o: ArcObject, w: Which)
    requires o in s.books.objs && s.books.objs[o].refs > 0 && !s.books.objs[o].locked
    requires s.lists.Where(o) == Some(w)
    ensures Move(s, o, None) == s.(lists := Taken(s.lists, o, w), books := s.books.Unhash(o))
  {
  }

  lemma DropListed(s: Cache, o: ArcObject, w: Which)
    requires Core(s) && o in s.books.objs && s.lists.Where(o) == Some(w)
    ensures s.books.objs[o].refs > 0 && Core(s.(lists := Taken(s.lists, o, w), books := s.books.Unhash(o)))
  {
    WhereIs(s.lists, o);
    UnhashSound(s.books, o);
    TakeProper(s.lists, w, o);
  }

  lemma WhereSame(l: Lists, l': Lists, x: ArcObject)
    requires forall v :: x in l'.Get(v) <==> x in l.Get(v)
    ensures l'.Where(x) == l.Where(x)
  {
    assert x in l'.Get(Mru) <==> x in l.Get(Mru);
    assert x in l'.Get(Mfu) <==> x in l.Get(Mfu);
    assert x in l'.Get(Mrug) <==> x in l.Get(Mrug);
    assert x in l'.Get(Mfug) <==> x in l.Get(Mfug);
  }

  lemma WhereTaken(l: Lists, o: ArcObject, w: Which, x: ArcObject)
    requires l.Proper() && o in l.Get(w)
    ensures Taken(l, o, w).Where(x) == if x == o then None else l.Where(x)
  {
    WithoutMembers(l.Get(w), o);
    var l' := Taken(l, o, w);
    if x == o {
      forall v ensures o !in l'.Get(v) {}
      WhereSame(l', Lists([], [], [], []), o);
    } else {
      forall v ensures x in l'.Get(v) <==> x in l.Get(v) {}
      WhereSame(l, l', x);
    }
  }

  lemma WherePushed(l: Lists, o: ArcObject, w: Which, x: ArcObject)
    requires l.Where(o) == None
    ensures l.Put(w, [o] + l.Get(w)).Where(x) == if x == o then Some(w) else l.Where(x)
  {
  }
}
