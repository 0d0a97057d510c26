/** lib/core/tree.js: a ternary search tree over header names, proved to be a map on lower-case names. */
module TernarySearchTree {
  import opened Wrappers

  /** A UTF-16 code unit of an inserted key, and a byte of a key looked up. */
  type CodeUnit = c: int | 0 <= c < 0x1_0000
  type Byte = c: int | 0 <= c < 0x100

  /** The tree as a value. Greater codes are on the left. */
  datatype Tree<V> = Leaf | Node(code: CodeUnit, value: Option<V>, left: Tree<V>, middle: Tree<V>, right: Tree<V>)

  function Get<V>(t: Tree<V>, key: seq<CodeUnit>): Option<V>
    decreases t
  {
    if t.Leaf? || key == [] then None
    else if key[0] == t.code then (if |key| == 1 then t.value else Get(t.middle, key[1..]))
    else Get(if t.code < key[0] then t.left else t.right, key)
  }

  function Chain<V>(key: seq<CodeUnit>, value: Option<V>): Tree<V> {
    if key == [] then Leaf
    else if |key| == 1 then Node(key[0], value, Leaf, Leaf, Leaf)
    else Node(key[0], None, Leaf, Chain(key[1..], value), Leaf)
  }

  function Put<V>(t: Tree<V>, key: seq<CodeUnit>, value: Option<V>): Tree<V>
    requires key != []
    decreases t
  {
    if t.Leaf? then Chain(key, value)
    else if key[0] == t.code then
      if |key| == 1 then t.(value := value) else t.(middle := Put(t.middle, key[1..], value))
    else if t.code < key[0] then t.(left := Put(t.left, key, value))
    else t.(right := Put(t.right, key, value))
  }

  lemma {:induction false} GetChain<V>(key: seq<CodeUnit>, value: Option<V>, q: seq<CodeUnit>)
    requires key != []
    ensures Get(Chain(key, value), q) == if q == key then value else None
  {
    if q != [] && q[0] == key[0] {
      assert q == [q[0]] + q[1..] && key == [key[0]] + key[1..];
      if |key| > 1 && |q| > 1 {
        GetChain(key[1..], value, q[1..]);
      }
    }
  }

  /** An insertion is found again, and disturbs no other key. */
  lemma {:induction false} GetPut<V>(t: Tree<V>, key: seq<CodeUnit>, value: Option<V>, q: seq<CodeUnit>)
    requires key != []
    ensures Get(Put(t, key, value), q) == if q == key then value else Get(t, q)
    decreases t
  {
    if t.Leaf? {
      GetChain(key, value, q);
    } else if key[0] == t.code {
      if q != [] && q[0] == key[0] {
        assert q == [q[0]] + q[1..] && key == [key[0]] + key[1..];
        if |key| > 1 && |q| > 1 {
          GetPut(t.middle, key[1..], value, q[1..]);
        }
      }
    } else {
      GetPut(if t.code < key[0] then t.left else t.right, key, value, q);
    }
  }

  /** Codes go down from left to right, within (lo, hi), and every code is ASCII. */
  ghost predicate Ordered<V>(t: Tree<V>, lo: int, hi: int) {
    t.Leaf? ||
    (lo < t.code < hi && Ordered(t.left, t.code, hi) && Ordered(t.middle, -1, 0x80) && Ordered(t.right, lo, t.code))
  }

  predicate Ascii(key: seq<CodeUnit>) {
    forall i :: 0 <= i < |key| ==> key[i] <= 0x7F
  }

  lemma {:induction false} ChainOrdered<V>(key: seq<CodeUnit>, value: Option<V>, lo: int, hi: int)
    requires key != [] && Ascii(key) && lo < key[0] < hi
    ensures Ordered(Chain(key, value), lo, hi)
  {
    if |key| > 1 {
      assert key[1..][0] == key[1] && Ascii(key[1..]);
      ChainOrdered(key[1..], value, -1, 0x80);
    }
    var t := Chain(key, value);
    assert t.code == key[0] && t.left == Leaf && t.right == Leaf;
    assert Ordered(t.left, t.code, hi) && Ordered(t.middle, -1, 0x80) && Ordered(t.right, lo, t.code);
  }

  lemma {:induction false} PutOrdered<V>(t: Tree<V>, key: seq<CodeUnit>, value: Option<V>, lo: int, hi: int)
    requires key != [] && Ascii(key) && lo < key[0] < hi && Ordered(t, lo, hi)
    ensures Ordered(Put(t, key, value), lo, hi)
    decreases t
  {
    if t.Leaf? {
      ChainOrdered(key, value, lo, hi);
    } else if key[0] == t.code {
      if |key| > 1 {
        assert key[1..][0] == key[1] && Ascii(key[1..]);
        PutOrdered(t.middle, key[1..], value, -1, 0x80);
      }
    } else if t.code < key[0] {
      PutOrdered(t.left, key, value, t.code, hi);
    } else {
      PutOrdered(t.right, key, value, lo, t.code);
    }
  }

  /** `value` stands somewhere in the tree at the end of a path that spells `key`, whichever way one has to turn. */
  ghost predicate Holds<V>(t: Tree<V>, key: seq<CodeUnit>, value: V)
    decreases t
  {
    && t.Node? && key != []
    && (|| (key[0] == t.code && (if |key| == 1 then t.value == Some(value) else Holds(t.middle, key[1..], value)))
        || Holds(t.left, key, value) || Holds(t.right, key, value))
  }

  lemma {:induction false} HeldWithin<V>(t: Tree<V>, key: seq<CodeUnit>, value: V, lo: int, hi: int)
    requires Ordered(t, lo, hi) && Holds(t, key, value)
    ensures lo < key[0] < hi
    decreases t
  {
    if Holds(t.left, key, value) {
      HeldWithin(t.left, key, value, t.code, hi);
    } else if Holds(t.right, key, value) {
      HeldWithin(t.right, key, value, lo, t.code);
    }
  }

  /** The search turns one way at each node and still misses nothing: in an ordered tree it finds exactly what a
      search of the whole tree would. */
  lemma {:induction false} SearchMissesNothing<V>(t: Tree<V>, key: seq<CodeUnit>, value: V, lo: int, hi: int)
    requires Ordered(t, lo, hi)
    ensures Holds(t, key, value) <==> Get(t, key) == Some(value)
    decreases t
  {
    if t.Node? && key != [] {
      if key[0] == t.code && |key| > 1 {
        SearchMissesNothing(t.middle, key[1..], value, -1, 0x80);
      }
      SearchMissesNothing(t.left, key, value, t.code, hi);
      SearchMissesNothing(t.right, key, value, lo, t.code);
      if Holds(t.left, key, value) {
        HeldWithin(t.left, key, value, t.code, hi);
      }
      if Holds(t.right, key, value) {
        HeldWithin(t.right, key, value, lo, t.code);
      }
    }
  }

  /** The byte the search compares: A to Z get bit 5 set. */
  function Lower(code: Byte): (r: Byte) {
    if 0x41 <= code <= 0x5A then code + 32 else code
  }

  /** Setting bit 5 of a capital letter is adding 32. */
  lemma LowerSetsBit(code: bv8)
    ensures Lower(code as Byte) == (if 0x41 <= code <= 0x5A then code | 32 else code) as Byte
  {
    assert 0x41 <= code <= 0x5A ==> code | 32 == code + 32 && (code + 32) as Byte == code as Byte + 32;
  }

  function Lowered(key: seq<Byte>): (r: seq<CodeUnit>)
    ensures |r| == |key|
    ensures forall i :: 0 <= i < |key| ==> r[i] == Lower(key[i])
  {
    if key == [] then [] else [Lower(key[0])] + Lowered(key[1..])
  }

  /** A name can be looked up at all iff it has bytes only and no capital letter: what is inserted under any other
      name is never found. */
  lemma {:induction false} Findable(name: seq<CodeUnit>)
    ensures (exists key :: Lowered(key) == name) <==>
            forall i :: 0 <= i < |name| ==> name[i] < 0x100 && !(0x41 <= name[i] <= 0x5A)
  {
    if forall i :: 0 <= i < |name| ==> name[i] < 0x100 && !(0x41 <= name[i] <= 0x5A) {
      var key: seq<Byte> := seq(|name|, i requires 0 <= i < |name| => name[i] as Byte);
      assert Lowered(key) == name;
    }
  }

  class TstNode<V> {
    var value: Option<V>
    var left: TstNode?<V>
    var middle: TstNode?<V>
    var right: TstNode?<V>
    const code: CodeUnit
    ghost var model: Tree<V>
    ghost var Repr: set<TstNode<V>>

    ghost predicate Owns(child: TstNode?<V>)
      reads this, if child in Repr then {child} else {}
    {
      child != null ==> child in Repr && child.Repr < Repr && this !in child.Repr
    }

    /** The nodes below are a tree of their own, with the value `model`. */
    ghost predicate Valid()
      reads this, Repr
      ensures Valid() ==> this in Repr && model.Node?
      decreases Repr, 1
    {
      Joined()
    }

    ghost predicate Joined()
      reads this, Repr
      decreases Repr, 0
    {
      && this in Repr && Owns(left) && Owns(middle) && Owns(right)
      && (left != null ==> left.Valid()) && (middle != null ==> middle.Valid()) && (right != null ==> right.Valid())
      && ReprOf(left) !! ReprOf(middle) && ReprOf(left) !! ReprOf(right) && ReprOf(middle) !! ReprOf(right)
      && model == Node(code, value, ModelOf(left), ModelOf(middle), ModelOf(right))
    }

    lemma Unfold()
      ensures Valid() <==> Joined()
    {
    }

    static ghost function ReprOf(node: TstNode?<V>): set<TstNode<V>>
      reads node
    {
      if node == null then {} else node.Repr
    }

    static ghost function ModelOf(node: TstNode?<V>): Tree<V>
      reads node
    {
      if node == null then Leaf else node.model
    }

    constructor Bare(code: CodeUnit, value: Option<V>, middle: TstNode?<V>)
      requires middle != null ==> middle.Valid()
      ensures Valid() && model == Node(code, value, Leaf, ModelOf(middle), Leaf)
      ensures Repr == {this} + ReprOf(middle)
    {
      this.code, this.value, this.middle, left, right := code, value, middle, null, null;
      model := Node(code, value, Leaf, ModelOf(middle), Leaf);
      Repr := {this} + ReprOf(middle);
    }

    /** The constructor, null where it throws: for an index past the end and for a code that is not ASCII. */
    static method Build(key: seq<CodeUnit>, value: Option<V>, index: nat) returns (node: TstNode?<V>)
      ensures node != null <==> index < |key| && Ascii(key[index..])
      ensures node != null ==> node.Valid() && fresh(node.Repr) && node.model == Chain(key[index..], value)
      decreases |key| - index
    {
      if index >= |key| {
        return null;
      }
      assert key[index..][0] == key[index] && key[index..][1..] == key[index + 1..];
      if key[index] > 0x7F {
        return null;
      }
      if |key| != index + 1 {
        var below := Build(key, value, index + 1);
        if below == null {
          return null;
        }
        node := new TstNode<V>.Bare(key[index], None, below);
      } else {
        node := new TstNode<V>.Bare(key[index], value, null);
      }
    }

    /** add, from the node and the index its loop has reached; false where it throws. Every step but the last is a
        move to a child, so what is below is inserted into first and the models are brought up to date on the way back. */
    method Add(key: seq<CodeUnit>, value: Option<V>, index: nat) returns (ok: bool)
      requires Valid() && index < |key|
      modifies Repr
      ensures Valid() && fresh(Repr - old(Repr))
      ensures ok <==> Ascii(key[index..])
      ensures model == if ok then Put(old(model), key[index..], value) else old(model)
      decreases Repr, 2
    {
      assert key[index..][0] == key[index] && key[index..][1..] == key[index + 1..];
      if key[index] > 0x7F {
        return false;
      }
      if code == key[index] {
        if |key| == index + 1 {
          this.value := value;
          model := model.(value := value);
          return true;
        }
        ok := AddMiddle(key, value, index + 1);
      } else if code < key[index] {
        ok := AddLeft(key, value, index);
      } else {
        ok := AddRight(key, value, index);
      }
    }

    method AddLeft(key: seq<CodeUnit>, value: Option<V>, index: nat) returns (ok: bool)
      requires Valid() && index < |key|
      modifies Repr
      ensures Valid() && fresh(Repr - old(Repr))
      ensures ok <==> Ascii(key[index..])
      ensures model == if ok then old(model).(left := Put(old(model).left, key[index..], value)) else old(model)
      decreases Repr, 1
    {
      hide Put, Valid, Ascii;
      Unfold();
      ok, left := AddBelow(left, key, value, index);
      Repr := Repr + ReprOf(left);
      model := model.(left := ModelOf(left));
      Unfold();
    }

    method AddMiddle(key: seq<CodeUnit>, value: Option<V>, index: nat) returns (ok: bool)
      requires Valid() && index < |key|
      modifies Repr
      ensures Valid() && fresh(Repr - old(Repr))
      ensures ok <==> Ascii(key[index..])
      ensures model == if ok then old(model).(middle := Put(old(model).middle, key[index..], value)) else old(model)
      decreases Repr, 1
    {
      hide Put, Valid, Ascii;
      Unfold();
      ok, middle := AddBelow(middle, key, value, index);
      Repr := Repr + ReprOf(middle);
      model := model.(middle := ModelOf(middle));
      Unfold();
    }

    method AddRight(key: seq<CodeUnit>, value: Option<V>, index: nat) returns (ok: bool)
      requires Valid() && index < |key|
      modifies Repr
      ensures Valid() && fresh(Repr - old(Repr))
      ensures ok <==> Ascii(key[index..])
      ensures model == if ok then old(model).(right := Put(old(model).right, key[index..], value)) else old(model)
      decreases Repr, 1
    {
      hide Put, Valid, Ascii;
      Unfold();
      ok, right := AddBelow(right, key, value, index);
      Repr := Repr + ReprOf(right);
      model := model.(right := ModelOf(right));
      Unfold();
    }

    /** On into a child, or a new child where there is none. */
    method AddBelow(child: TstNode?<V>, key: seq<CodeUnit>, value: Option<V>, index: nat)
      returns (ok: bool, now: TstNode?<V>)
      requires child != null ==> child.Valid() && child.Repr < Repr
      requires index < |key|
      modifies ReprOf(child)
      ensures child != null ==> now == child
      ensures now != null ==> now.Valid()
      ensures fresh(ReprOf(now) - old(ReprOf(child)))
      ensures ok <==> Ascii(key[index..])
      ensures ModelOf(now) == if ok then Put(old(ModelOf(child)), key[index..], value) else old(ModelOf(child))
      decreases Repr, 0
    {
      now := child;
      if child != null {
        ok := child.Add(key, value, index);
      } else {
        now := Build(key, value, index);
        ok := now != null;
      }
    }

    method Search(key: seq<Byte>) returns (found: TstNode?<V>)
      requires Valid()
      ensures (if found == null then None else found.value) == Get(model, Lowered(key))
    {
      var index := 0;
      var node: TstNode?<V> := this;
      while node != null && index < |key|
        invariant index <= |key| && (node != null ==> node.Valid())
        invariant Get(model, Lowered(key)) == Get(ModelOf(node), Lowered(key)[index..])
        decreases |key| - index, node != null
      {
        var code := Lower(key[index]);
        ghost var was := index;
        while node != null
          invariant index == was && (node != null ==> node.Valid())
          invariant Get(model, Lowered(key)) == Get(ModelOf(node), Lowered(key)[index..])
          decreases TstNode<V>.ReprOf(node)
        {
          assert Lowered(key)[index..][0] == code && Lowered(key)[index..][1..] == Lowered(key)[index + 1..];
          if code == node.code {
            index := index + 1;
            if |key| == index {
              return node;
            }
            node := node.middle;
            break;
          }
          node := if node.code < code then node.left else node.right;
        }
      }
      return null;
    }
  }

  /** The last value inserted under a name among the insertions that did not throw. */
  function LastValue<V>(inserts: seq<(seq<CodeUnit>, Option<V>)>, name: seq<CodeUnit>): Option<V> {
    if inserts == [] then None
    else
      var (key, value) := inserts[|inserts| - 1];
      if key == name && key != [] && Ascii(key) then value else LastValue(inserts[..|inserts| - 1], name)
  }

  class TernarySearchTree<V> {
    var node: TstNode?<V>
    /** What has been inserted and did not throw. */
    ghost var entries: map<seq<CodeUnit>, Option<V>>

    ghost function Model(): Tree<V>
      reads this, node
    {
      TstNode<V>.ModelOf(node)
    }

    ghost predicate Valid()
      reads this, node, TstNode<V>.ReprOf(node)
    {
      && (node != null ==> node.Valid())
      && Ordered(Model(), -1, 0x80)
      && forall name :: Get(Model(), name) == if name in entries then entries[name] else None
    }

    constructor ()
      ensures Valid() && entries == map[] && node == null
    {
      node, entries := null, map[];
    }

    /** False where it throws: for the empty key and for one that is not ASCII. The tree is then as it was. */
    method Insert(key: seq<CodeUnit>, value: Option<V>) returns (ok: bool)
      requires Valid()
      modifies this, TstNode<V>.ReprOf(node)
      ensures Valid()
      ensures ok <==> key != [] && Ascii(key)
      ensures entries == if ok then old(entries)[key := value] else old(entries)
      ensures !ok ==> Model() == old(Model())
      ensures fresh(TstNode<V>.ReprOf(node) - old(TstNode<V>.ReprOf(node)))
    {
      assert key[0..] == key;
      if node == null {
        node := TstNode<V>.Build(key, value, 0);
        ok := node != null;
      } else if key == [] {
        ok := false;
      } else {
        ok := node.Add(key, value, 0);
      }
      if ok {
        entries := entries[key := value];
        PutOrdered(old(Model()), key, value, -1, 0x80);
        forall name ensures Get(Model(), name) == if name in entries then entries[name] else None {
          GetPut(old(Model()), key, value, name);
        }
      }
    }

    method Lookup(key: seq<Byte>) returns (value: Option<V>)
      requires Valid()
      ensures value == if Lowered(key) in entries then entries[Lowered(key)] else None
    {
      var found: TstNode?<V> := null;
      if node != null {
        found := node.Search(key);
      }
      value := if found == null then None else found.value;
    }
  }

  /** "A" is inserted, and looking up "A" finds nothing. */
  method CapitalNotFound() returns (ok: bool, value: Option<nat>)
    ensures ok && value.None?
  {
    var tree := new TernarySearchTree<nat>();
    ok := tree.Insert([0x41], Some(1));
    assert Lowered([0x41]) == [0x61] != [0x41];
    value := tree.Lookup([0x41]);
  }

  /** After any run of insertions a lookup gives the last value inserted under the lower-case form of its key. */
  method InsertAllThenLookup<V>(inserts: seq<(seq<CodeUnit>, Option<V>)>, key: seq<Byte>) returns (value: Option<V>)
    ensures value == LastValue(inserts, Lowered(key))
  {
    var tree := new TernarySearchTree<V>();
    for i := 0 to |inserts|
      invariant tree.Valid() && fresh(tree) && fresh(TstNode<V>.ReprOf(tree.node))
      invariant forall name :: (if name in tree.entries then tree.entries[name] else None) == LastValue(inserts[..i], name)
    {
      assert inserts[..i + 1][..i] == inserts[..i];
      var _ := tree.Insert(inserts[i].0, inserts[i].1);
    }
    assert inserts[..|inserts|] == inserts;
    value := tree.Lookup(key);
  }
}
