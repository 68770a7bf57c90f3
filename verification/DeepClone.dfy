/** `simpleDeepClone` on the heap: what the clone looks like, what it shares with the original, and when it throws. */
module DeepClone {
  import opened Text

  /**
   * Plain objects inherit from Object; objects without a prototype lack `hasOwnProperty`. The class of an instance is
   * not named Object, and the instance has no own key `constructor`.
   */
  datatype Kind = Array | Plain | NullPrototype | ClassInstance

  /** Values that are not objects; numbers by their text. */
  datatype Atom = Undefined | Null | Boolean(b: bool) | Number(text: string) | Str(s: string)

  predicate IsTruthy(a: Atom) {
    match a
    case Undefined => false
    case Null => false
    case Boolean(b) => b
    case Number(text) => text != "0" && text != "NaN"
    case Str(s) => s != ""
  }

  datatype Value = Primitive(atom: Atom) | Ref(cell: Cell)

  const CONSTRUCTOR := "constructor"
  const HAS_OWN_PROPERTY := "hasOwnProperty"
  const PROTO := "__proto__"

  /** An object: its own enumerable keys in order (none for an array), its values, and a prototype assigned later. */
  class Cell {
    const kind: Kind
    var keys: seq<string>
    var values: seq<Value>
    var proto: Option<Value>

    constructor (kind: Kind)
      ensures this.kind == kind && keys == [] && values == [] && proto == None
    {
      this.kind := kind;
      keys := [];
      values := [];
      proto := None;
    }
  }

  /** What a value looks like to a reader who compares class instances by identity. */
  datatype Tree =
    | Leaf(atom: Atom)
    | Instance(cell: Cell)
    | Node(isArray: bool, keys: seq<string>, children: seq<Tree>, proto: Option<Tree>)

  function IndexOf(keys: seq<string>, key: string): (i: nat)
    ensures i <= |keys| && key !in keys[..i]
    ensures i < |keys| ==> keys[i] == key
  {
    if keys == [] || keys[0] == key then 0
    else
      var i := IndexOf(keys[1..], key) + 1;
      assert keys[..i] == [keys[0]] + keys[1..][..i - 1];
      i
  }

  /** The sequence without the element at `p`, if there is one. */
  function Drop<T>(s: seq<T>, p: nat): seq<T> {
    if p < |s| then s[..p] + s[p + 1..] else s
  }

  // ---------- acyclic values ----------

  predicate IsContainer(v: Value) {
    v.Ref? && !v.cell.kind.ClassInstance?
  }

  predicate WellFormed(c: Cell)
    reads c
  {
    if c.kind.Array? then c.keys == [] && c.proto == None
    else |c.keys| == |c.values| && forall i, j | 0 <= i < j < |c.keys| :: c.keys[i] != c.keys[j]
  }

  /** The containers reachable from `v` lie in `cells`, without cycles; class instances are not looked into. */
  ghost predicate Acyclic(v: Value, cells: set<Cell>)
    reads cells
    decreases cells
  {
    IsContainer(v) ==>
      && v.cell in cells && WellFormed(v.cell)
      && (forall i | 0 <= i < |v.cell.values| :: Acyclic(v.cell.values[i], cells - {v.cell}))
      && (v.cell.proto.Some? ==> Acyclic(v.cell.proto.value, cells - {v.cell}))
  }

  ghost function Unfold(v: Value, cells: set<Cell>): Tree
    requires Acyclic(v, cells)
    reads cells
    decreases cells
  {
    if v.Primitive? then Leaf(v.atom)
    else if v.cell.kind.ClassInstance? then Instance(v.cell)
    else
      Node(v.cell.kind.Array?, v.cell.keys,
           seq(|v.cell.values|, i requires 0 <= i < |v.cell.values| && Acyclic(v, cells) reads cells =>
                 Unfold(v.cell.values[i], cells - {v.cell})),
           if v.cell.proto.Some? then Some(Unfold(v.cell.proto.value, cells - {v.cell})) else None)
  }

  /** Some container reachable from `v` lies on this side. */
  ghost predicate Touches(v: Value, cells: set<Cell>, side: set<Cell>)
    requires Acyclic(v, cells)
    reads cells
    decreases cells
  {
    IsContainer(v) &&
      (|| v.cell in side
       || (exists i :: 0 <= i < |v.cell.values| && Touches(v.cell.values[i], cells - {v.cell}, side))
       || (v.cell.proto.Some? && Touches(v.cell.proto.value, cells - {v.cell}, side)))
  }

  /** No reachable container has been assigned a prototype. */
  ghost predicate Ordinary(v: Value, cells: set<Cell>)
    requires Acyclic(v, cells)
    reads cells
    decreases cells
  {
    IsContainer(v) ==>
      && v.cell.proto == None
      && forall i | 0 <= i < |v.cell.values| :: Ordinary(v.cell.values[i], cells - {v.cell})
  }

  /** More cells to look in change nothing, nor do cells of a side that are not looked in. */
  lemma {:induction false} MoreCells(v: Value, cells: set<Cell>, more: set<Cell>, side: set<Cell>, other: set<Cell>)
    requires Acyclic(v, cells) && cells <= more && side * cells == other * cells
    ensures Acyclic(v, more) && Unfold(v, more) == Unfold(v, cells)
    ensures Touches(v, more, other) == Touches(v, cells, side)
    decreases cells
  {
    if IsContainer(v) {
      assert side * (cells - {v.cell}) == other * (cells - {v.cell}) by {
        assert side * (cells - {v.cell}) == side * cells - {v.cell};
        assert other * (cells - {v.cell}) == other * cells - {v.cell};
      }
      forall i | 0 <= i < |v.cell.values|
        ensures Acyclic(v.cell.values[i], more - {v.cell})
        ensures Unfold(v.cell.values[i], more - {v.cell}) == Unfold(v.cell.values[i], cells - {v.cell})
        ensures Touches(v.cell.values[i], more - {v.cell}, other) == Touches(v.cell.values[i], cells - {v.cell}, side)
      {
        MoreCells(v.cell.values[i], cells - {v.cell}, more - {v.cell}, side, other);
      }
      if v.cell.proto.Some? {
        MoreCells(v.cell.proto.value, cells - {v.cell}, more - {v.cell}, side, other);
      }
      assert v.cell in side <==> v.cell in other by {
        assert v.cell in side * cells <==> v.cell in other * cells;
      }
    }
  }

  /** A value that does not touch a side needs no cells of that side. */
  lemma {:induction false} WithoutSide(v: Value, cells: set<Cell>, side: set<Cell>)
    requires Acyclic(v, cells) && !Touches(v, cells, side)
    ensures Acyclic(v, cells - side) && Unfold(v, cells - side) == Unfold(v, cells)
    decreases cells
  {
    if IsContainer(v) {
      assert cells - side - {v.cell} == cells - {v.cell} - side;
      forall i | 0 <= i < |v.cell.values|
        ensures Acyclic(v.cell.values[i], cells - side - {v.cell})
        ensures Unfold(v.cell.values[i], cells - side - {v.cell}) == Unfold(v.cell.values[i], cells - {v.cell})
      {
        WithoutSide(v.cell.values[i], cells - {v.cell}, side);
      }
      if v.cell.proto.Some? {
        WithoutSide(v.cell.proto.value, cells - {v.cell}, side);
      }
    }
  }

  // ---------- what the code does to a value ----------

  /** The object has an own key `name` with the value Object. */
  predicate NamedObject(c: Cell)
    reads c
  {
    var k := IndexOf(c.keys, "name");
    k < |c.keys| && k < |c.values| && c.values[k] == Primitive(Str("Object"))
  }

  /** An object is taken for a class instance if its own `constructor` is truthy and not named Object. */
  ghost predicate ActsAsInstance(c: Cell, cells: set<Cell>)
    requires Acyclic(Ref(c), cells) && IsContainer(Ref(c))
    reads cells
  {
    var k := IndexOf(c.keys, CONSTRUCTOR);
    && k < |c.keys|
    && match c.values[k]
       case Primitive(atom) => IsTruthy(atom)
       case Ref(d) => d.kind.ClassInstance? || (Acyclic(Ref(d), cells - {c}) && !NamedObject(d))
  }

  /** Asking the object for its own keys throws: it inherits no `hasOwnProperty`, or holds some other value under it. */
  predicate CannotBeAsked(c: Cell)
    reads c
  {
    !c.kind.Array? && c.keys != [] && (c.kind.NullPrototype? || HAS_OWN_PROPERTY in c.keys)
  }

  /** Cloning does not throw. */
  ghost predicate Clonable(v: Value, cells: set<Cell>)
    requires Acyclic(v, cells)
    reads cells
    decreases cells
  {
    IsContainer(v) && !ActsAsInstance(v.cell, cells) ==>
      && !CannotBeAsked(v.cell)
      && forall i | 0 <= i < |v.cell.values| :: Clonable(v.cell.values[i], cells - {v.cell})
  }

  /** No container is taken for a class instance. */
  ghost predicate NothingShared(v: Value, cells: set<Cell>)
    requires Acyclic(v, cells)
    reads cells
    decreases cells
  {
    IsContainer(v) ==>
      && !ActsAsInstance(v.cell, cells)
      && forall i | 0 <= i < |v.cell.values| :: NothingShared(v.cell.values[i], cells - {v.cell})
  }

  /** No container that is cloned has an own key `__proto__`. */
  ghost predicate NothingLost(v: Value, cells: set<Cell>)
    requires Acyclic(v, cells)
    reads cells
    decreases cells
  {
    IsContainer(v) && !ActsAsInstance(v.cell, cells) ==>
      && PROTO !in v.cell.keys
      && forall i | 0 <= i < |v.cell.values| :: NothingLost(v.cell.values[i], cells - {v.cell})
  }

  /** What assigning the value to `__proto__` makes the prototype: objects and null are taken, the rest is ignored. */
  function ProtoFrom(v: Value): Option<Value> {
    if v.Ref? || v == Primitive(Null) then Some(v) else None
  }

  function ProtoAfter(proto: Option<Value>, v: Value): Option<Value> {
    if ProtoFrom(v).Some? then ProtoFrom(v) else proto
  }

  /** What the clone looks like: the key `__proto__` is gone, and its value has become the prototype. */
  ghost function Cloned(v: Value, cells: set<Cell>): Tree
    requires Acyclic(v, cells)
    reads cells
    decreases cells
  {
    if !IsContainer(v) || ActsAsInstance(v.cell, cells) then Unfold(v, cells)
    else
      var p := ProtoIndex(v.cell);
      Node(v.cell.kind.Array?, Drop(v.cell.keys, p),
           Drop(seq(|v.cell.values|, i requires 0 <= i < |v.cell.values| && Acyclic(v, cells) reads cells =>
                      Cloned(v.cell.values[i], cells - {v.cell})), p),
           if p < |v.cell.values| && ProtoFrom(v.cell.values[p]).Some?
             then Some(Cloned(v.cell.values[p], cells - {v.cell})) else None)
  }

  /** Where the value of `__proto__` stands; past the end if there is none. */
  function ProtoIndex(c: Cell): (p: nat)
    reads c
  {
    if c.kind.Array? then |c.values| else IndexOf(c.keys, PROTO)
  }

  /** The clone looks like the original exactly if no key is lost. */
  lemma {:induction false} LooksAlikeIff(v: Value, cells: set<Cell>)
    requires Acyclic(v, cells) && Ordinary(v, cells)
    ensures Cloned(v, cells) == Unfold(v, cells) <==> NothingLost(v, cells)
    decreases cells
  {
    if IsContainer(v) && !ActsAsInstance(v.cell, cells) {
      var c := v.cell;
      var n := |c.values|;
      forall i | 0 <= i < n
        ensures Cloned(c.values[i], cells - {c}) == Unfold(c.values[i], cells - {c})
           <==> NothingLost(c.values[i], cells - {c})
      {
        LooksAlikeIff(c.values[i], cells - {c});
      }
      var looks, was := Cloned(v, cells), Unfold(v, cells);
      assert PROTO in c.keys <==> ProtoIndex(c) < n;
      if ProtoIndex(c) < n {
        assert |looks.keys| == |was.keys| - 1;
      } else {
        assert looks == was <==> looks.children == was.children;
        assert forall i | 0 <= i < n ::
            looks.children[i] == Cloned(c.values[i], cells - {c}) && was.children[i] == Unfold(c.values[i], cells - {c});
        if looks.children == was.children {
          forall i | 0 <= i < n
            ensures NothingLost(c.values[i], cells - {c})
          {
            assert looks.children[i] == was.children[i];
          }
        }
      }
    }
  }

  /** A value that is cloned as one would expect: none of the three names stands in the way. */
  ghost predicate PlainlyKeyed(v: Value, cells: set<Cell>)
    requires Acyclic(v, cells)
    reads cells
    decreases cells
  {
    IsContainer(v) ==>
      && !ActsAsInstance(v.cell, cells) && !CannotBeAsked(v.cell) && PROTO !in v.cell.keys
      && forall i | 0 <= i < |v.cell.values| :: PlainlyKeyed(v.cell.values[i], cells - {v.cell})
  }

  lemma {:induction false} PlainlyKeyedIff(v: Value, cells: set<Cell>)
    requires Acyclic(v, cells)
    ensures PlainlyKeyed(v, cells) <==> Clonable(v, cells) && NothingShared(v, cells) && NothingLost(v, cells)
    decreases cells
  {
    if IsContainer(v) {
      forall i | 0 <= i < |v.cell.values|
        ensures PlainlyKeyed(v.cell.values[i], cells - {v.cell}) <==>
                  Clonable(v.cell.values[i], cells - {v.cell}) && NothingShared(v.cell.values[i], cells - {v.cell})
                  && NothingLost(v.cell.values[i], cells - {v.cell})
      {
        PlainlyKeyedIff(v.cell.values[i], cells - {v.cell});
      }
    }
  }

  // ---------- filling a new container ----------

  /** `v` is the clone of `w`: it looks as the clone does, and touches the original exactly if something is shared. */
  ghost predicate IsCloneOf(v: Value, made: set<Cell>, w: Value, cells: set<Cell>)
    requires Acyclic(w, cells)
    reads made, cells
  {
    && Acyclic(v, made + cells) && Unfold(v, made + cells) == Cloned(w, cells)
    && (Touches(v, made + cells, cells) <==> !NothingShared(w, cells))
  }

  ghost predicate AllAcyclic(vs: seq<Value>, cells: set<Cell>)
    reads cells
  {
    forall j | 0 <= j < |vs| :: Acyclic(vs[j], cells)
  }

  ghost predicate AllOrdinary(vs: seq<Value>, cells: set<Cell>)
    requires AllAcyclic(vs, cells)
    reads cells
  {
    forall j | 0 <= j < |vs| :: Ordinary(vs[j], cells)
  }

  ghost predicate AllClonable(vs: seq<Value>, n: nat, cells: set<Cell>)
    requires AllAcyclic(vs, cells) && n <= |vs|
    reads cells
  {
    forall j | 0 <= j < n :: Clonable(vs[j], cells)
  }

  lemma OneMoreClonable(vs: seq<Value>, n: nat, cells: set<Cell>)
    requires AllAcyclic(vs, cells) && n < |vs|
    ensures AllClonable(vs, n + 1, cells) <==> AllClonable(vs, n, cells) && Clonable(vs[n], cells)
    ensures AllClonable(vs, |vs|, cells) ==> Clonable(vs[n], cells)
  {
    hide Clonable;
  }

  lemma OneOf(vs: seq<Value>, i: nat, cells: set<Cell>)
    requires AllAcyclic(vs, cells) && AllOrdinary(vs, cells) && i < |vs|
    ensures Acyclic(vs[i], cells) && Ordinary(vs[i], cells)
  {
    hide Acyclic, Ordinary;
  }

  /** The values in `vs` are, one by one, clones of the first values in `ws`. */
  ghost predicate AreClonesOf(vs: seq<Value>, made: set<Cell>, ws: seq<Value>, cells: set<Cell>)
    requires AllAcyclic(ws, cells)
    reads made, cells
  {
    |vs| <= |ws| && forall j | 0 <= j < |vs| :: IsCloneOf(vs[j], made, ws[j], cells)
  }

  lemma CloneWithMore(v: Value, made: set<Cell>, more: set<Cell>, w: Value, cells: set<Cell>)
    requires Acyclic(w, cells) && IsCloneOf(v, made, w, cells) && made <= more
    ensures IsCloneOf(v, more, w, cells)
  {
    MoreCells(v, made + cells, more + cells, cells, cells);
  }

  lemma OneMoreClone(vs: seq<Value>, made: set<Cell>, ws: seq<Value>, cells: set<Cell>, v: Value, below: set<Cell>)
    requires AllAcyclic(ws, cells) && AreClonesOf(vs, made, ws, cells)
    requires |vs| < |ws| && IsCloneOf(v, below, ws[|vs|], cells)
    ensures AreClonesOf(vs + [v], made + below, ws, cells)
  {
    hide IsCloneOf;
    CloneWithMore(v, below, made + below, ws[|vs|], cells);
    forall j | 0 <= j < |vs|
      ensures IsCloneOf(vs[j], made + below, ws[j], cells)
    {
      CloneWithMore(vs[j], made, made + below, ws[j], cells);
    }
  }

  lemma DropNothing<T>(s: seq<T>, p: nat)
    requires s == []
    ensures Drop(s, p) == []
  {
  }

  lemma DropAppend<T>(s: seq<T>, p: nat, x: T)
    ensures Drop(s + [x], p) == if |s| == p then Drop(s, p) else Drop(s, p) + [x]
  {
  }

  /** A child's clone, seen from the container it is put in. */
  lemma ChildClone(v: Value, made: set<Cell>, w: Value, cells: set<Cell>, c: Cell)
    requires c in cells && made !! cells
    requires Acyclic(w, cells - {c}) && IsCloneOf(v, made, w, cells - {c})
    ensures Acyclic(v, made + cells) && Unfold(v, made + cells) == Cloned(w, cells - {c})
    ensures Touches(v, made + cells, cells) <==> !NothingShared(w, cells - {c})
    ensures ProtoFrom(v).Some? <==> ProtoFrom(w).Some?
  {
    var inner := cells - {c};
    assert inner * (made + inner) == cells * (made + inner);
    MoreCells(v, made + inner, made + cells, inner, cells);
  }

  /** What the new container has once it is filled. */
  predicate IsFilledFrom(copy: Cell, source: Cell, all: seq<Value>)
    reads copy, source
  {
    var p := ProtoIndex(source);
    && copy.kind == (if source.kind.Array? then Array else Plain)
    && |all| == |source.values|
    && copy.keys == Drop(source.keys, p) && copy.values == Drop(all, p)
    && copy.proto == if p < |all| then ProtoFrom(all[p]) else None
  }

  /** Every kept value, and the one that has become the prototype. */
  lemma Kept(all: seq<Value>, p: nat, i: nat)
    requires i < |all| && i != p
    ensures exists k: nat :: k < |Drop(all, p)| && Drop(all, p)[k] == all[i] && k == if p < i then i - 1 else i
  {
    var k := if p < |all| && p < i then i - 1 else i;
    assert p < i ==> p < |all|;
    assert k < |Drop(all, p)| && Drop(all, p)[k] == all[i];
  }

  lemma FilledIsWellFormed(copy: Cell, source: Cell, all: seq<Value>)
    requires WellFormed(source) && IsFilledFrom(copy, source, all)
    ensures WellFormed(copy)
  {
  }

  /** A container filled with clones is itself a clone. */
  lemma Assemble(copy: Cell, made: set<Cell>, source: Cell, cells: set<Cell>, all: seq<Value>)
    requires Acyclic(Ref(source), cells) && IsContainer(Ref(source)) && !ActsAsInstance(source, cells)
    requires copy !in made + cells && made !! cells && IsFilledFrom(copy, source, all)
    requires AreClonesOf(all, made, source.values, cells - {source})
    ensures IsCloneOf(Ref(copy), made + {copy}, Ref(source), cells)
  {
    hide IsCloneOf, Touches, Acyclic, Cloned, Unfold, NothingShared, ActsAsInstance, WellFormed;
    Children(source, cells);
    forall i | 0 <= i < |all|
      ensures ClonedChild(all[i], made + cells, source.values[i], cells, source)
    {
      ChildClone(all[i], made, source.values[i], cells, source);
    }
    FilledIsWellFormed(copy, source, all);
    assert made + {copy} + cells - {copy} == made + cells;
    CopyLooks(copy, made, source, cells, all);
    CopyTouches(copy, made, source, cells, all);
    ThenIsClone(Ref(copy), made + {copy}, Ref(source), cells);
  }

  lemma ThenIsClone(v: Value, made: set<Cell>, w: Value, cells: set<Cell>)
    requires Acyclic(w, cells) && Acyclic(v, made + cells) && Unfold(v, made + cells) == Cloned(w, cells)
    requires Touches(v, made + cells, cells) <==> !NothingShared(w, cells)
    ensures IsCloneOf(v, made, w, cells)
  {
  }

  /** What is returned as it is: a value that is no container, or a container taken for a class instance. */
  lemma SharedIsClone(v: Value, cells: set<Cell>)
    requires Acyclic(v, cells)
    requires IsContainer(v) ==> ActsAsInstance(v.cell, cells)
    ensures IsCloneOf(v, {}, v, cells) && Clonable(v, cells)
  {
    assert {} + cells == cells;
  }

  lemma NotCloned(v: Value, cells: set<Cell>)
    requires Acyclic(v, cells) && IsContainer(v) && !ActsAsInstance(v.cell, cells)
    ensures Clonable(v, cells) <==>
              !CannotBeAsked(v.cell)
              && AllAcyclic(v.cell.values, cells - {v.cell})
              && AllClonable(v.cell.values, |v.cell.values|, cells - {v.cell})
  {
  }

  lemma ArraysAreNoInstances(c: Cell, cells: set<Cell>)
    requires Acyclic(Ref(c), cells) && c.kind.Array?
    ensures !ActsAsInstance(c, cells)
  {
  }

  lemma Children(source: Cell, cells: set<Cell>)
    requires Acyclic(Ref(source), cells) && IsContainer(Ref(source))
    ensures source in cells && WellFormed(source)
    ensures forall i | 0 <= i < |source.values| :: Acyclic(source.values[i], cells - {source})
  {
  }

  ghost predicate ClonedChild(v: Value, all: set<Cell>, w: Value, cells: set<Cell>, c: Cell)
    requires Acyclic(w, cells - {c})
    reads all, cells
  {
    && Acyclic(v, all) && Unfold(v, all) == Cloned(w, cells - {c})
    && (Touches(v, all, cells) <==> !NothingShared(w, cells - {c}))
    && (ProtoFrom(v).Some? <==> ProtoFrom(w).Some?)
  }

  lemma CopyLooks(copy: Cell, made: set<Cell>, source: Cell, cells: set<Cell>, all: seq<Value>)
    requires Acyclic(Ref(source), cells) && IsContainer(Ref(source)) && !ActsAsInstance(source, cells)
    requires copy !in made + cells && IsFilledFrom(copy, source, all) && WellFormed(copy)
    requires forall i | 0 <= i < |all| :: ClonedChild(all[i], made + cells, source.values[i], cells, source)
    ensures Acyclic(Ref(copy), made + {copy} + cells)
    ensures Unfold(Ref(copy), made + {copy} + cells) == Cloned(Ref(source), cells)
  {
    var p := ProtoIndex(source);
    assert made + {copy} + cells - {copy} == made + cells;
    assert forall k | 0 <= k < |copy.values| :: copy.values[k] == all[if k < p then k else k + 1];
    var looks, clone := Unfold(Ref(copy), made + {copy} + cells), Cloned(Ref(source), cells);
    forall k | 0 <= k < |copy.values|
      ensures looks.children[k] == clone.children[k]
    {
      var i := if k < p then k else k + 1;
      assert ClonedChild(all[i], made + cells, source.values[i], cells, source);
    }
    assert looks.children == clone.children;
  }

  lemma CopyTouches(copy: Cell, made: set<Cell>, source: Cell, cells: set<Cell>, all: seq<Value>)
    requires Acyclic(Ref(source), cells) && IsContainer(Ref(source)) && !ActsAsInstance(source, cells)
    requires copy !in made + cells && IsFilledFrom(copy, source, all)
    requires forall i | 0 <= i < |all| :: ClonedChild(all[i], made + cells, source.values[i], cells, source)
    requires Acyclic(Ref(copy), made + {copy} + cells)
    ensures Touches(Ref(copy), made + {copy} + cells, cells) <==> !NothingShared(Ref(source), cells)
  {
    var p := ProtoIndex(source);
    assert made + {copy} + cells - {copy} == made + cells;
    assert forall k | 0 <= k < |copy.values| :: copy.values[k] == all[if k < p then k else k + 1];
    forall i | 0 <= i < |all| && !NothingShared(source.values[i], cells - {source})
      ensures Touches(Ref(copy), made + {copy} + cells, cells)
    {
      if i == p {
        assert copy.proto == Some(all[p]);
      } else {
        var k := if i < p then i else i - 1;
        assert copy.values[k] == all[i];
      }
    }
  }

  /** The clone as one would expect it: all its containers are new, and it looks like the original. */
  ghost predicate IsTrueClone(v: Value, made: set<Cell>, w: Value, cells: set<Cell>)
    requires Acyclic(w, cells)
    reads made, cells
  {
    Acyclic(v, made) && Unfold(v, made) == Unfold(w, cells)
  }

  lemma {:induction false} TouchesNoSide(v: Value, cells: set<Cell>)
    requires Acyclic(v, cells)
    ensures !Touches(v, cells, {})
    decreases cells
  {
    if IsContainer(v) {
      forall i | 0 <= i < |v.cell.values|
        ensures !Touches(v.cell.values[i], cells - {v.cell}, {})
      {
        TouchesNoSide(v.cell.values[i], cells - {v.cell});
      }
      if v.cell.proto.Some? {
        TouchesNoSide(v.cell.proto.value, cells - {v.cell});
      }
    }
  }

  /** A clone is a true one exactly if nothing is shared and nothing lost. */
  lemma TrueCloneIff(v: Value, made: set<Cell>, w: Value, cells: set<Cell>)
    requires Acyclic(w, cells) && Ordinary(w, cells) && made !! cells && IsCloneOf(v, made, w, cells)
    ensures IsTrueClone(v, made, w, cells) <==> NothingShared(w, cells) && NothingLost(w, cells)
    ensures NothingShared(w, cells) <==> Acyclic(v, made)
  {
    hide Acyclic, Unfold, Touches, Cloned, NothingShared, NothingLost, Ordinary;
    LooksAlikeIff(w, cells);
    if NothingShared(w, cells) {
      WithoutSide(v, made + cells, cells);
      assert made + cells - cells == made;
    }
    if Acyclic(v, made) {
      TouchesNoSide(v, made);
      assert {} * made == cells * made;
      MoreCells(v, made, made + cells, {}, cells);
    }
  }

  // ---------- the three names ----------

  /** `{"constructor": "x"}` is returned as it is. */
  lemma ConstructorKeyIsShared(c: Cell)
    requires c.kind.Plain? && c.keys == ["constructor"] && c.values == [Primitive(Str("x"))] && c.proto == None
    ensures Acyclic(Ref(c), {c}) && Ordinary(Ref(c), {c})
    ensures ActsAsInstance(c, {c}) && Clonable(Ref(c), {c}) && !NothingShared(Ref(c), {c})
  {
  }

  /** But not `{"constructor": v}` for `v` null, false, 0 or the empty text, nor for an object that is named Object. */
  lemma FalsyConstructorKeyIsCloned(c: Cell, v: Value, cells: set<Cell>)
    requires c.kind.Plain? && c.keys == ["constructor"] && c.values == [v] && c.proto == None
    requires Acyclic(Ref(c), cells)
    ensures v.Primitive? && v.atom in {Undefined, Null, Boolean(false), Number("0"), Number("NaN"), Str("")} ==>
              !ActsAsInstance(c, cells)
    ensures v.Primitive? && v.atom in {Boolean(true), Number("1"), Str("Object")} ==> ActsAsInstance(c, cells)
    ensures v.Ref? && v.cell.kind.Plain? && v.cell.keys == ["name"] && v.cell.values == [Primitive(Str("Object"))] ==>
              !ActsAsInstance(c, cells)
    ensures v.Ref? && v.cell.kind.Plain? && v.cell.keys == [] ==> ActsAsInstance(c, cells)
  {
    assert IndexOf(c.keys, CONSTRUCTOR) == 0;
    assert c.values[0] == v;
  }

  /** Cloning `{"hasOwnProperty": "x"}` throws. */
  lemma HasOwnPropertyKeyThrows(c: Cell)
    requires c.kind.Plain? && c.keys == ["hasOwnProperty"] && c.values == [Primitive(Str("x"))] && c.proto == None
    ensures Acyclic(Ref(c), {c}) && Ordinary(Ref(c), {c}) && !Clonable(Ref(c), {c})
  {
    assert HAS_OWN_PROPERTY[0] != CONSTRUCTOR[0];
  }

  /** The key of `JSON.parse('{"__proto__": {}}')` is lost; its value becomes the prototype of the clone. */
  lemma ProtoKeyIsLost(c: Cell, d: Cell)
    requires c != d && c.kind.Plain? && c.keys == ["__proto__"] && c.values == [Ref(d)] && c.proto == None
    requires d.kind.Plain? && d.keys == [] && d.values == [] && d.proto == None
    ensures Acyclic(Ref(c), {c, d}) && Ordinary(Ref(c), {c, d})
    ensures Clonable(Ref(c), {c, d}) && NothingShared(Ref(c), {c, d}) && !NothingLost(Ref(c), {c, d})
    ensures Cloned(Ref(c), {c, d}) == Node(false, [], [], Some(Node(false, [], [], None)))
  {
    var cells := {c, d};
    assert PROTO[0] != CONSTRUCTOR[0] && PROTO[0] != HAS_OWN_PROPERTY[0];
    assert Acyclic(Ref(d), cells - {c}) && Ordinary(Ref(d), cells - {c});
    assert c.values[0] == Ref(d);
    assert !ActsAsInstance(d, cells - {c});
    assert Cloned(Ref(d), cells - {c}) == Node(false, [], [], None);
    assert !ActsAsInstance(c, cells);
    assert Drop(c.keys, 0) == [];
  }

  /** With `{"__proto__": null}` the clone has no prototype; other values that are no objects are ignored. */
  lemma PlainProtoKeyIsLost(c: Cell, atom: Atom)
    requires c.kind.Plain? && c.keys == ["__proto__"] && c.values == [Primitive(atom)] && c.proto == None
    ensures Acyclic(Ref(c), {c}) && Ordinary(Ref(c), {c}) && Clonable(Ref(c), {c})
    ensures Cloned(Ref(c), {c}) == Node(false, [], [], if atom == Null then Some(Leaf(Null)) else None)
  {
    assert PROTO[0] != CONSTRUCTOR[0] && PROTO[0] != HAS_OWN_PROPERTY[0];
    assert c.values[0] == Primitive(atom);
    assert !ActsAsInstance(c, {c});
    assert Drop(c.keys, 0) == [];
  }

  // ---------- the code ----------

  /** `isClassInstance` on an object. */
  method IsClassInstance(c: Cell, ghost cells: set<Cell>) returns (b: bool)
    requires Acyclic(Ref(c), cells) && IsContainer(Ref(c))
    ensures b <==> ActsAsInstance(c, cells)
  {
    var k := IndexOf(c.keys, CONSTRUCTOR);
    if k == |c.keys| {
      return false;
    }
    match c.values[k] {
      case Primitive(atom) => b := IsTruthy(atom);
      case Ref(d) => b := d.kind.ClassInstance? || !NamedObject(d);
    }
  }

  /** `output[key] = value` for a key that is new to the object. */
  method Assign(copy: Cell, key: string, value: Value)
    modifies copy
    ensures if key == PROTO then copy.keys == old(copy.keys) && copy.values == old(copy.values)
            else copy.keys == old(copy.keys) + [key] && copy.values == old(copy.values) + [value]
    ensures copy.proto == if key != PROTO then old(copy.proto) else ProtoAfter(old(copy.proto), value)
  {
    if key == PROTO {
      copy.proto := ProtoAfter(copy.proto, value);
    } else {
      copy.keys := copy.keys + [key];
      copy.values := copy.values + [value];
    }
  }

  /** The loop that fills a new container; it stops where cloning an element throws. */
  method CloneInto(copy: Cell, source: Cell, ghost cells: set<Cell>)
    returns (ok: bool, ghost made: set<Cell>, ghost all: seq<Value>)
    requires Acyclic(Ref(source), cells) && IsContainer(Ref(source)) && Ordinary(Ref(source), cells)
    requires !CannotBeAsked(source)
    requires copy !in cells && copy.kind == (if source.kind.Array? then Array else Plain)
    requires copy.keys == [] && copy.values == [] && copy.proto == None
    modifies copy
    ensures fresh(made) && made !! cells && copy !in made
    ensures forall c | c in made :: c.kind.Array? || c.kind.Plain?
    ensures AllAcyclic(source.values, cells - {source})
    ensures ok <==> AllClonable(source.values, |source.values|, cells - {source})
    ensures ok ==> IsFilledFrom(copy, source, all) && AreClonesOf(all, made, source.values, cells - {source})
    decreases cells, 0
  {
    hide Acyclic, Unfold, Clonable, Cloned, IsCloneOf, Touches, NothingShared, Ordinary, WellFormed, AllAcyclic,
         AllOrdinary, AllClonable, AreClonesOf, Drop, ProtoIndex, ProtoFrom;
    FillingStarts(source, cells);
    ghost var inner := cells - {source};
    var p := ProtoIndex(source);
    made, all := {}, [];
    DropNothing(all, p);
    DropNothing(source.keys[..0], p);
    var i := 0;
    while i < |source.values|
      invariant 0 <= i <= |source.values| && |all| == i
      invariant fresh(made) && copy !in made
      invariant forall c | c in made :: c.kind.Array? || c.kind.Plain?
      invariant copy.keys == (if source.kind.Array? then [] else Drop(source.keys[..i], p))
      invariant copy.values == Drop(all, p)
      invariant copy.proto == if p < i then ProtoFrom(all[p]) else None
      invariant AllAcyclic(source.values, inner)
      invariant AllOrdinary(source.values, inner)
      invariant AllClonable(source.values, i, inner)
      invariant AreClonesOf(all, made, source.values, inner)
    {
      ghost var below;
      var element, value;
      OneOf(source.values, i, inner);
      OneMoreClonable(source.values, i, inner);
      element, value, below := SimpleDeepClone(source.values[i], inner);
      if !element {
        return false, made, all;
      }
      OneMoreClone(all, made, source.values, inner, value, below);
      DropAppend(all, p, value);
      all := all + [value];
      made := made + below;
      if source.kind.Array? {
        copy.values := copy.values + [value];
      } else {
        assert source.keys[..i + 1] == source.keys[..i] + [source.keys[i]];
        DropAppend(source.keys[..i], p, source.keys[i]);
        KeyAt(source, i);
        Assign(copy, source.keys[i], value);
      }
      i := i + 1;
    }
    assert source.keys[..|source.keys|] == source.keys;
    ok := true;
  }

  lemma FillingStarts(source: Cell, cells: set<Cell>)
    requires Acyclic(Ref(source), cells) && IsContainer(Ref(source)) && Ordinary(Ref(source), cells)
    ensures source in cells && WellFormed(source) && AllAcyclic(source.values, cells - {source})
    ensures if source.kind.Array? then source.keys == [] && ProtoIndex(source) == |source.values|
            else |source.keys| == |source.values|
    ensures AllOrdinary(source.values, cells - {source}) && AllClonable(source.values, 0, cells - {source})
    ensures AreClonesOf([], {}, source.values, cells - {source})
  {
  }

  lemma KeyAt(source: Cell, i: nat)
    requires WellFormed(source) && !source.kind.Array? && i < |source.keys|
    ensures source.keys[i] == PROTO <==> i == ProtoIndex(source)
  {
    var p := ProtoIndex(source);
    if i < p {
      assert source.keys[i] in source.keys[..p];
    }
  }

  /** The clone; `ok` is false where the original throws. */
  method SimpleDeepClone(input: Value, ghost cells: set<Cell>) returns (ok: bool, output: Value, ghost made: set<Cell>)
    requires Acyclic(input, cells) && Ordinary(input, cells)
    ensures fresh(made) && made !! cells
    ensures forall c | c in made :: c.kind.Array? || c.kind.Plain?
    ensures ok <==> Clonable(input, cells)
    ensures ok ==> IsCloneOf(output, made, input, cells)
    ensures ok && IsTrueClone(output, made, input, cells) <==> PlainlyKeyed(input, cells)
    ensures IsContainer(input) && ActsAsInstance(input.cell, cells) ==> output == input
    decreases cells, 1
  {
    hide Acyclic, Unfold, Clonable, Cloned, IsCloneOf, Touches, NothingShared, Ordinary, ActsAsInstance, WellFormed,
         AllClonable, AreClonesOf, AllAcyclic, IsFilledFrom, IsTrueClone, PlainlyKeyed, NothingLost;
    PlainlyKeyedIff(input, cells);
    if !IsContainer(input) {
      SharedIsClone(input, cells);
      TrueCloneIff(input, {}, input, cells);
      return true, input, {};
    }
    var source := input.cell;
    if source.kind.Array? {
      ArraysAreNoInstances(source, cells);
    } else {
      var instance := IsClassInstance(source, cells);
      if instance {
        SharedIsClone(input, cells);
        TrueCloneIff(input, {}, input, cells);
        return true, input, {};
      }
    }
    NotCloned(input, cells);
    if CannotBeAsked(source) {
      return false, input, {};
    }
    var copy := new Cell(if source.kind.Array? then Array else Plain);
    ghost var all;
    var filled;
    filled, made, all := CloneInto(copy, source, cells);
    if filled {
      Assemble(copy, made, source, cells, all);
    }
    made := made + {copy};
    if filled {
      TrueCloneIff(Ref(copy), made, input, cells);
    }
    return filled, Ref(copy), made;
  }

  // ---------- apart ----------

  /** Any later change of the heap that leaves the containers of one side alone leaves that side as it was. */
  twostate lemma StayApart(input: Value, cells: set<Cell>, output: Value, made: set<Cell>)
    requires old(Acyclic(input, cells)) && old(Acyclic(output, made))
    ensures unchanged(cells) ==> Acyclic(input, cells) && Unfold(input, cells) == old(Unfold(input, cells))
    ensures unchanged(made) ==> Acyclic(output, made) && Unfold(output, made) == old(Unfold(output, made))
  {
  }

  /** A write to an object: its keys and values afterwards. */
  datatype Write = Write(cell: Cell, keys: seq<string>, values: seq<Value>)

  /** Any sequence of writes to the objects of one side. */
  method WriteAll(writes: seq<Write>, ghost side: set<Cell>)
    requires forall k | 0 <= k < |writes| :: writes[k].cell in side
    modifies side
  {
    for k := 0 to |writes| {
      var w := writes[k];
      w.cell.keys := w.keys;
      w.cell.values := w.values;
    }
  }

  /** After any writes to the original, a clone that shares nothing still is what was made of the original. */
  method CloneThenWriteOriginal(input: Value, ghost cells: set<Cell>, writes: seq<Write>)
    returns (ok: bool, output: Value, ghost made: set<Cell>)
    requires Acyclic(input, cells) && Ordinary(input, cells)
    requires forall k | 0 <= k < |writes| :: writes[k].cell in cells
    modifies cells
    ensures ok <==> old(Clonable(input, cells))
    ensures ok && old(NothingShared(input, cells)) ==>
              Acyclic(output, made) && Unfold(output, made) == old(Cloned(input, cells))
    ensures old(PlainlyKeyed(input, cells)) ==>
              ok && Acyclic(output, made) && Unfold(output, made) == old(Unfold(input, cells))
  {
    ok, output, made := SimpleDeepClone(input, cells);
    PlainlyKeyedIff(input, cells);
    if ok {
      TrueCloneIff(output, made, input, cells);
      if !Touches(output, made + cells, cells) {
        WithoutSide(output, made + cells, cells);
        assert made + cells - cells == made;
      }
    }
    WriteAll(writes, cells);
  }

  /** After any writes to the new containers of a clone, the original still is what it was, shared or not. */
  method WriteClone(input: Value, ghost cells: set<Cell>, output: Value, ghost made: set<Cell>, writes: seq<Write>)
    requires Acyclic(input, cells) && made !! cells
    requires forall k | 0 <= k < |writes| :: writes[k].cell in made
    modifies made
    ensures Acyclic(input, cells) && Unfold(input, cells) == old(Unfold(input, cells))
  {
    WriteAll(writes, made);
  }

  /** But a write to the clone of `{"constructor": "x"}` is a write to the original. */
  method WriteReachesTheOriginal(c: Cell)
    requires c.kind.Plain? && c.keys == ["constructor"] && c.values == [Primitive(Str("x"))] && c.proto == None
    modifies c
    ensures c.values == [Primitive(Str("y"))]
  {
    ConstructorKeyIsShared(c);
    var ok, output;
    ghost var made;
    ok, output, made := SimpleDeepClone(Ref(c), {c});
    output.cell.values := [Primitive(Str("y"))];
  }
}
