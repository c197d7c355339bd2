// The ternary search trie of src/data_structures/trie.c: nodes linked by left, centre, right and parent.
module Trie {
  type Char = c: int | -128 <= c < 128
  type Key = seq<Char>
  type Handler = int

  datatype Option<+T> = None | Some(value: T)

  /** The text at a node's key pointer: the string its caller passed in, or a buffer of the trie's own. */
  datatype KeyText = Callers(text: Key) | Own(text: Key)

  /** What a node carries. */
  datatype Entry = Entry(handler: Option<Handler>, value: Option<Key>, key: Option<KeyText>)

  const BLANK := Entry(None, None, None)

  class Node {
    var c: Char                 // 0 in a node no character has reached yet
    var parent: Node?
    var left: Node?
    var centre: Node?
    var right: Node?
    var key: Option<KeyText>
    var value: Option<Key>
    var handler: Option<Handler>
    // Where the node stands: its place in the order of creation, the characters that lead to it, whether it
    // is the first node of its level, and the open interval its character must lie in.
    ghost var id: nat
    ghost var prefix: Key
    ghost var top: bool
    ghost var lo: int
    ghost var hi: int

    /** A node as calloc leaves it. */
    constructor (parent: Node?, ghost id: nat, ghost prefix: Key, ghost top: bool, ghost lo: int, ghost hi: int)
      ensures c == 0 && this.parent == parent && left == null && centre == null && right == null
      ensures key == None && value == None && handler == None
      ensures this.id == id && this.prefix == prefix && this.top == top && this.lo == lo && this.hi == hi
    {
      c, this.parent, left, centre, right := 0, parent, null, null, null;
      key, value, handler := None, None, None;
      this.id, this.prefix, this.top, this.lo, this.hi := id, prefix, top, lo, hi;
    }

    ghost function Carries(): Entry
      reads this
    {
      Entry(handler, value, key)
    }
  }

  const LOW := -129
  const HIGH := 128

  ghost predicate NulFree(k: Key) {
    0 !in k
  }

  class TernaryTrie {
    var root: Node?
    ghost var order: seq<Node>            // every node, oldest first
    ghost var level: map<Key, Node>       // the first node of the level each prefix leads to

    ghost predicate Known(n: Node?)
      reads this, order
    {
      n != null && n in order && n.id < |order| && order[n.id] == n
    }

    ghost predicate IsChild(n: Node, m: Node)
      reads this, order, n
    {
      Known(m) && m.parent == n && m.id > n.id
    }

    ghost predicate SameLevel(n: Node, m: Node, lo: int, hi: int)
      reads n, m
    {
      m.prefix == n.prefix && !m.top && m.lo == lo && m.hi == hi
    }

    ghost predicate NextLevel(n: Node, m: Node)
      reads n, m
    {
      m.prefix == n.prefix + [n.c] && m.top && m.lo == LOW && m.hi == HIGH
    }

    /** What holds of a node and its children. */
    ghost predicate NodeOk(n: Node)
      reads this, order, n
    {
      && (n.c == 0 ==> n.left == null && n.centre == null && n.right == null)
      && (n.c != 0 ==> n.lo < n.c < n.hi && n.centre != null)
      && (n.left != null ==> IsChild(n, n.left) && SameLevel(n, n.left, n.lo, n.c))
      && (n.right != null ==> IsChild(n, n.right) && SameLevel(n, n.right, n.c, n.hi))
      && (n.centre != null ==> IsChild(n, n.centre) && NextLevel(n, n.centre))
      && NulFree(n.prefix)
      && LOW <= n.lo < n.hi <= HIGH
    }

    /** Every node but the root is a child of its parent; only the first node of a level carries anything. */
    ghost predicate PlaceOk(n: Node)
      reads this, order, n
    {
      && (n == root ==> n.parent == null && n.prefix == [] && n.top && n.lo == LOW && n.hi == HIGH)
      && (n != root ==> Known(n.parent) && n.parent.id < n.id)
      && (n != root && n.top ==> n.parent.centre == n)
      && (n != root && !n.top ==> n.parent.left == n || n.parent.right == n)
      && (n.top ==> n.prefix in level && level[n.prefix] == n)
      && (!n.top ==> n.Carries() == BLANK)
    }

    ghost predicate Valid()
      reads this, order
    {
      && (root == null <==> order == [])
      && (root != null ==> root == order[0])
      && (forall i :: 0 <= i < |order| ==> order[i].id == i)
      && (forall n {:trigger NodeOk(n)} :: n in order ==> NodeOk(n))
      && (forall n {:trigger PlaceOk(n)} :: n in order ==> PlaceOk(n))
      && (forall p :: p in level ==> Known(level[p]) && level[p].prefix == p && level[p].top)
    }

    constructor ()
      ensures Valid() && order == [] && level == map[] && Owned()
    {
      root, order, level := null, [], map[];
    }

    /** What is stored under a key. */
    ghost function EntryAt(k: Key): Entry
      requires Valid()
      reads this, order
    {
      if k in level then level[k].Carries() else BLANK
    }

    ghost function HandlerAt(k: Key): Option<Handler>
      requires Valid()
      reads this, order
    {
      EntryAt(k).handler
    }

    /** The key pointer of a node is its caller's exactly if it has a handler. */
    ghost predicate Owned()
      requires Valid()
      reads this, order
    {
      forall k :: EntryAt(k).handler.Some? <==> EntryAt(k).key.Some? && EntryAt(k).key.value.Callers?
    }

    // ---- Searching one level ----

    /** n is q or one of the nodes above q on its level. */
    ghost predicate Under(q: Node, n: Node)
      requires Valid() && Known(q)
      reads this, order
      decreases q.id
    {
      q == n || (PlaceOk(q) && !q.top && Under(q.parent, n))
    }

    lemma {:induction false} UnderFirst(q: Node)
      requires Valid() && Known(q)
      ensures q.prefix in level && Under(q, level[q.prefix])
      decreases q.id
    {
      assert PlaceOk(q);
      if !q.top {
        assert NodeOk(q.parent);
        UnderFirst(q.parent);
      }
    }

    lemma {:induction false} UnderInterval(q: Node, n: Node)
      requires Valid() && Known(q) && Known(n) && Under(q, n)
      ensures q.prefix == n.prefix && n.lo <= q.lo && q.hi <= n.hi
      decreases q.id
    {
      if q == n {
      } else {
        assert PlaceOk(q) && NodeOk(q.parent);
        UnderInterval(q.parent, n);
        if q.parent.c == 0 { assert false; }
      }
    }

    /** Below n, a node of its level is on the side its character says. */
    lemma {:induction false} UnderStep(q: Node, n: Node)
      requires Valid() && Known(q) && Known(n) && Under(q, n) && q != n && q.c != 0
      ensures n.c != 0
      ensures q.c < n.c ==> n.left != null && Under(q, n.left)
      ensures q.c > n.c ==> n.right != null && Under(q, n.right)
      ensures q.c != n.c
      decreases q.id
    {
      assert PlaceOk(q) && NodeOk(q);
      var p := q.parent;
      assert NodeOk(p) && NodeOk(n);
      if p == n {
        assert Under(q, q);
      } else {
        assert p.c != 0;
        UnderStep(p, n);
        UnderInterval(q, p);
        if p.c < n.c {
          UnderInterval(p, n.left);
        } else {
          UnderInterval(p, n.right);
        }
      }
    }

    /** traverse_to_child_char: the level reached from the level of n by one more character. */
    method TraverseToChildChar(c: Char, n0: Node?) returns (r: Node?)
      requires Valid() && (n0 != null ==> Known(n0) && n0.top)
      ensures n0 == null ==> r == null
      ensures n0 != null ==> r == if n0.prefix + [c] in level then level[n0.prefix + [c]] else null
    {
      var n := n0;
      if n0 == null {
        return null;
      }
      ghost var p := n0.prefix;
      ghost var found := p + [c] in level;
      ghost var q: Node? := null;
      if found {
        q := TargetOf(p, c);
        UnderFirst(q);
        assert PlaceOk(n0);
      }
      while n != null
        invariant n != null ==> Known(n) && n.prefix == p
        invariant found ==> n != null && Under(q, n)
        decreases if n == null then 0 else |order| - n.id
      {
        assert NodeOk(n);
        if found && q != n {
          UnderStep(q, n);
        }
        if c > n.c {
          n := n.right;
        } else if c < n.c {
          n := n.left;
        } else {
          break;
        }
      }
      if n == null {
        return null;
      }
      assert NodeOk(n);
      r := n.centre;
      if r != null {
        assert PlaceOk(r);
      }
    }

    /** The node whose middle child is the level of prefix p + [c]. */
    lemma TargetOf(p: Key, c: Char) returns (q: Node)
      requires Valid() && p + [c] in level
      ensures Known(q) && q.prefix == p && q.c == c && c != 0 && q.centre == level[p + [c]]
    {
      var m := level[p + [c]];
      assert PlaceOk(m) && NodeOk(m);
      q := m.parent;
      assert NodeOk(q);
      assert m.prefix == q.prefix + [q.c];
      assert (p + [c])[|p|] == c && (q.prefix + [q.c])[|q.prefix|] == q.c;
      assert (p + [c])[..|p|] == p && (q.prefix + [q.c])[..|q.prefix|] == q.prefix;
      assert (p + [c])[|p|] in m.prefix;
    }

    ghost predicate Reached(n: Node?, p: Key)
      requires Valid()
      reads this, order
    {
      n == if p in level then level[p] else null
    }

    /** Folding the traversal over a key from the root finds the level of that key, if there is one. */
    method Find(k: Key) returns (n: Node?)
      requires Valid()
      ensures n == if k in level then level[k] else null
      ensures n != null ==> EntryAt(k) == n.Carries()
    {
      n := root;
      RootReached();
      assert k[..0] == [];
      for i := 0 to |k|
        invariant Reached(n, k[..i])
      {
        if n == null { PrefixClosedStep(k[..i], k[i]); }
        n := TraverseToChildChar(k[i], n);
        assert k[..i] + [k[i]] == k[..i + 1];
      }
      assert k[..|k|] == k;
    }

    lemma RootReached()
      requires Valid()
      ensures Reached(root, [])
    {
      if root != null {
        assert PlaceOk(order[0]);
      } else {
        assert [] !in level;
      }
    }

    /** The levels are closed under prefixes. */
    lemma PrefixClosedStep(p: Key, c: Char)
      requires Valid() && p !in level
      ensures p + [c] !in level
    {
      if p + [c] in level {
        var q := TargetOf(p, c);
        UnderFirst(q);
      }
    }

    // ---- Inserting ----

    /** Nothing stored under any key has changed. */
    twostate predicate SameContents()
      requires old(Valid()) && Valid()
      reads this, order
    {
      forall k :: EntryAt(k) == old(EntryAt(k))
    }

    twostate predicate OldOrFresh()
      reads this, order
    {
      forall x :: x in order ==> x in old(order) || fresh(x)
    }

    /** The first node of an empty trie. */
    method MakeRoot()
      requires Valid() && root == null
      modifies this
      ensures Valid() && root != null && order == [root] && fresh(root) && root.prefix == [] && root.c == 0
      ensures level.Keys == {[]}
      ensures SameContents()
    {
      root := new Node(null, 0, [], true, LOW, HIGH);
      order := [root];
      level := map[[] := root];
    }

    /** The trie has grown by the node m: older nodes have only gained children, and levels have only been added. */
    twostate predicate Grown(new m: Node)
      reads this, order
    {
      && order == old(order) + [m] && root == old(root)
      && (forall y :: y in old(order) && y in order ==>
            && y.id == old(y.id) && y.prefix == old(y.prefix)
            && y.top == old(y.top) && y.lo == old(y.lo) && y.hi == old(y.hi)
            && y.parent == old(y.parent) && y.Carries() == old(y.Carries()))
      && (forall y :: y in old(order) && y in order ==>
            && (old(y.left) != null ==> y.left == old(y.left)) && (old(y.right) != null ==> y.right == old(y.right))
            && (old(y.centre) != null ==> y.centre == old(y.centre)))
      && (forall p :: p in old(level) ==> p in level && level[p] == old(level)[p])
    }

    twostate lemma GrownKnown(new m: Node, x: Node)
      requires old(Valid()) && Grown(m) && old(Known(x))
      ensures Known(x)
    {
      assert order[x.id] == old(order)[x.id];
    }

    twostate lemma GrownNode(new m: Node, x: Node)
      requires old(Valid()) && Grown(m) && old(Known(x))
      requires x.c == old(x.c) && x.left == old(x.left) && x.centre == old(x.centre) && x.right == old(x.right)
      ensures NodeOk(x)
    {
      assert old(NodeOk(x));
      if x.left != null { GrownKnown(m, x.left); }
      if x.centre != null { GrownKnown(m, x.centre); }
      if x.right != null { GrownKnown(m, x.right); }
    }

    twostate lemma GrownPlace(new m: Node, x: Node)
      requires old(Valid()) && Grown(m) && old(Known(x))
      ensures PlaceOk(x)
    {
      assert old(PlaceOk(x));
      if x != root { GrownKnown(m, x.parent); }
    }

    twostate lemma GrownValid(new m: Node, n: Node)
      requires old(Valid()) && Grown(m) && old(Known(n)) && m !in old(order)
      requires forall x :: x in old(order) && x != n ==>
        x.c == old(x.c) && x.left == old(x.left) && x.centre == old(x.centre) && x.right == old(x.right)
      requires m.id == |old(order)| && NodeOk(m) && PlaceOk(m) && NodeOk(n) && m.Carries() == BLANK
      requires forall p :: p in level ==> p in old(level) || (m.top && p == m.prefix && level[p] == m)
      ensures Valid() && SameContents()
    {
      GrownNodes(m, n);
      assert root == order[0];
      forall p | p in level ensures Known(level[p]) && level[p].prefix == p && level[p].top {
        if p in old(level) {
          GrownKnown(m, level[p]);
        } else {
          assert order[m.id] == m;
        }
      }
      GrownContents(m);
    }

    twostate lemma GrownNodes(new m: Node, n: Node)
      requires old(Valid()) && Grown(m) && old(Known(n)) && NodeOk(m) && PlaceOk(m) && NodeOk(n)
      requires forall x :: x in old(order) && x != n ==>
        x.c == old(x.c) && x.left == old(x.left) && x.centre == old(x.centre) && x.right == old(x.right)
      ensures forall x {:trigger NodeOk(x)} {:trigger PlaceOk(x)} :: x in order ==> NodeOk(x) && PlaceOk(x)
    {
      forall x | x in order ensures NodeOk(x) && PlaceOk(x) {
        if x != m {
          var i :| 0 <= i < |old(order)| && old(order)[i] == x;
          assert old(Known(x));
          GrownPlace(m, x);
          if x != n { GrownNode(m, x); }
        }
      }
    }

    twostate lemma GrownContents(new m: Node)
      requires old(Valid()) && Valid() && Grown(m) && m.Carries() == BLANK
      requires forall p :: p in level ==> p in old(level) || (m.top && p == m.prefix && level[p] == m)
      ensures SameContents()
    {
      forall k
        ensures EntryAt(k) == old(EntryAt(k))
      {
        if k in old(level) {
          assert old(Known(level[k]));
          GrownKnown(m, old(level[k]));
        }
      }
    }

    /** n gets the character ch, and below it the level for one more character. */
    method FillBlank(n: Node, ch: Char) returns (m: Node)
      requires Valid() && Known(n) && n.c == 0 && ch != 0 && n.lo < ch < n.hi && n.prefix + [ch] !in level
      modifies this, order
      ensures Valid() && order == old(order) + [m] && fresh(m) && root == old(root) && Known(m)
      ensures level == old(level)[m.prefix := m]
      ensures m.prefix == old(n.prefix) + [ch] && m.top && m.lo == LOW && m.hi == HIGH && m.c == 0
      ensures m.id == |old(order)|
      ensures SameContents()
    {
      m := new Node(n, |order|, n.prefix + [ch], true, LOW, HIGH);
      assert NodeOk(n);
      n.c := ch;
      n.centre := m;
      order := order + [m];
      level := level[m.prefix := m];
      GrownKnown(m, n);
      assert order[m.id] == m;
      GrownValid(m, n);
    }

    method AddRight(n: Node) returns (m: Node)
      requires Valid() && Known(n) && n.c != 0 && n.right == null && n.c + 1 < n.hi
      modifies this, order
      ensures Valid() && order == old(order) + [m] && fresh(m) && root == old(root) && Known(m) && level == old(level)
      ensures m.prefix == old(n.prefix) && m.lo == old(n.c) && m.hi == old(n.hi) && m.c == 0 && m.id == |old(order)|
      ensures SameContents()
    {
      m := new Node(n, |order|, n.prefix, false, n.c, n.hi);
      assert NodeOk(n);
      n.right := m;
      order := order + [m];
      GrownKnown(m, n);
      assert order[m.id] == m;
      GrownValid(m, n);
    }

    method AddLeft(n: Node) returns (m: Node)
      requires Valid() && Known(n) && n.c != 0 && n.left == null && n.lo + 1 < n.c
      modifies this, order
      ensures Valid() && order == old(order) + [m] && fresh(m) && root == old(root) && Known(m) && level == old(level)
      ensures m.prefix == old(n.prefix) && m.lo == old(n.lo) && m.hi == old(n.c) && m.c == 0 && m.id == |old(order)|
      ensures SameContents()
    {
      m := new Node(n, |order|, n.prefix, false, n.lo, n.c);
      assert NodeOk(n);
      n.left := m;
      order := order + [m];
      GrownKnown(m, n);
      assert order[m.id] == m;
      GrownValid(m, n);
    }

    /** If the level of n already has the character ch, it has it at n or below. */
    ghost predicate Sought(n: Node, ch: Char)
      requires Valid() && Known(n)
      reads this, order
    {
      n.prefix + [ch] in level ==>
        && PlaceOk(level[n.prefix + [ch]])
        && Known(level[n.prefix + [ch]].parent) && Under(level[n.prefix + [ch]].parent, n)
    }

    lemma SoughtAtFirst(n: Node, ch: Char)
      requires Valid() && Known(n) && n.top
      ensures Sought(n, ch)
    {
      if n.prefix + [ch] in level {
        var q := TargetOf(n.prefix, ch);
        var m := level[n.prefix + [ch]];
        assert PlaceOk(m) && NodeOk(q);
        UnderFirst(q);
        assert PlaceOk(n);
      }
    }

    /** The search moves to the side of ch, or learns that the level does not have it. */
    lemma SoughtBelow(n: Node, ch: Char)
      requires Valid() && Known(n) && Sought(n, ch) && n.c != ch
      ensures ch < n.c && n.left != null ==> Known(n.left) && n.left.prefix == n.prefix && Sought(n.left, ch)
      ensures ch > n.c && n.right != null ==> Known(n.right) && n.right.prefix == n.prefix && Sought(n.right, ch)
      ensures n.c == 0 || (ch < n.c && n.left == null) || (ch > n.c && n.right == null) ==> n.prefix + [ch] !in level
    {
      assert NodeOk(n);
      if n.prefix + [ch] in level {
        var q := TargetOf(n.prefix, ch);
        var m := level[n.prefix + [ch]];
        assert PlaceOk(m) && NodeOk(q) && q == m.parent;
        UnderStep(q, n);
      }
    }

    /** The walk shared by both inserts: follows the key, growing the trie where it does not go on yet. */
    method Walk(key: Key) returns (n: Node)
      requires Valid() && NulFree(key)
      modifies this, order
      ensures Valid() && Known(n) && key in level && level[key] == n && n.top
      ensures SameContents() && OldOrFresh()
      ensures forall p :: p in level <==> p in old(level) || p <= key
    {
      if root == null {
        MakeRoot();
      }
      n := root;
      RootReached();
      assert PlaceOk(n);
      var k := 0;
      assert key[..0] == [];
      if |key| > 0 { SoughtAtFirst(n, key[0]); }
      while k < |key|
        invariant 0 <= k <= |key| && Valid() && Known(n) && n.prefix == key[..k]
        invariant k < |key| ==> n.lo < key[k] < n.hi && Sought(n, key[k])
        invariant k == |key| ==> n.top
        invariant SameContents()
        invariant forall p :: p in level <==> p in old(level) || p <= key[..k]
        invariant forall x :: x in order ==> x in old(order) || fresh(x)
        decreases |key| - k, if n.c == 0 then 0 else 1 + |order| - n.id
      {
        assert forall i :: 0 <= i < |order| ==> order[i] in old(order) || fresh(order[i]);
        n, k := WalkStep(key, n, k);
      }
      assert key[..|key|] == key;
      assert PlaceOk(n);
    }

    method WalkStep(key: Key, n0: Node, k0: nat) returns (n: Node, k: nat)
      requires Valid() && NulFree(key) && k0 < |key| && Known(n0) && n0.prefix == key[..k0]
      requires n0.lo < key[k0] < n0.hi && Sought(n0, key[k0])
      modifies this, order
      ensures Valid() && Known(n) && k0 <= k <= |key| && n.prefix == key[..k]
      ensures k < |key| ==> n.lo < key[k] < n.hi && Sought(n, key[k])
      ensures k == |key| ==> n.top
      ensures k == k0 ==> old(n0.c) != 0 && (n.c == 0 || |order| - n.id < old(|order| - n0.id))
      ensures k <= k0 + 1 && SameContents()
      ensures forall p :: p in level <==> p in old(level) || p == key[..k]
      ensures forall x :: x in order ==> x in old(order) || fresh(x)
    {
      n, k := n0, k0;
      var ch := key[k];
      assert ch in key && ch != 0;
      assert NodeOk(n) && PlaceOk(n);
      UnderFirst(n);
      assert key[..k] + [ch] == key[..k + 1];
      if n.c == 0 {
        SoughtBelow(n, ch);
        n := FillBlank(n, ch);
        k := k + 1;
        if k < |key| { SoughtAtFirst(n, key[k]); }
      } else if ch > n.c {
        SoughtBelow(n, ch);
        if n.right == null {
          n := AddRight(n);
        } else {
          n := n.right;
        }
      } else if ch < n.c {
        SoughtBelow(n, ch);
        if n.left == null {
          n := AddLeft(n);
        } else {
          n := n.left;
        }
      } else {
        n := n.centre;
        assert PlaceOk(n);
        k := k + 1;
        if k < |key| { SoughtAtFirst(n, key[k]); }
      }
    }

    /** Filling in what a first node of a level carries leaves the trie in order. */
    twostate lemma StoredValid(n: Node)
      requires old(Valid()) && old(Known(n)) && n.top && root == old(root) && order == old(order) && level == old(level)
      requires forall x :: x in order ==>
        x.c == old(x.c) && x.left == old(x.left) && x.centre == old(x.centre) && x.right == old(x.right)
      requires forall x :: x in order ==> x.parent == old(x.parent) && x.id == old(x.id) && x.prefix == old(x.prefix)
      requires forall x :: x in order ==> x.top == old(x.top) && x.lo == old(x.lo) && x.hi == old(x.hi)
      requires forall x :: x in order && x != n ==> x.Carries() == old(x.Carries())
      ensures Valid()
      ensures forall k :: k in level && level[k] != n ==> EntryAt(k) == old(EntryAt(k))
      ensures forall k :: k in level && level[k] == n ==> k == n.prefix
    {
      forall x | x in order ensures NodeOk(x) && PlaceOk(x) {
        StoredNode(x);
      }
      forall k | k in level ensures level[k] in order && level[k].prefix == k {
        assert old(Known(level[k]));
      }
    }

    twostate lemma StoredNode(x: Node)
      requires old(Valid()) && x in order && root == old(root) && order == old(order) && level == old(level)
      requires forall x :: x in order ==>
        x.c == old(x.c) && x.left == old(x.left) && x.centre == old(x.centre) && x.right == old(x.right)
      requires forall x :: x in order ==> x.parent == old(x.parent) && x.id == old(x.id) && x.prefix == old(x.prefix)
      requires forall x :: x in order ==> x.top == old(x.top) && x.lo == old(x.lo) && x.hi == old(x.hi)
      requires !x.top ==> x.Carries() == old(x.Carries())
      ensures NodeOk(x) && PlaceOk(x)
    {
      assert old(NodeOk(x)) && old(PlaceOk(x));
    }

    /** insert_to_trie: the key gets this handler and the caller's key pointer, and no other key changes. */
    method InsertHandler(key: Key, handler: Handler)
      requires Valid() && NulFree(key)
      modifies this, order
      ensures Valid() && OldOrFresh()
      ensures forall k :: EntryAt(k) == if k == key then WithHandler(old(EntryAt(k)), key, handler) else old(EntryAt(k))
      ensures forall k :: k != key ==> EntryAt(k) == old(EntryAt(k))
      ensures EntryAt(key) == Entry(Some(handler), old(EntryAt(key)).value, Some(Callers(key)))
      ensures forall p :: p in level <==> p in old(level) || p <= key
      ensures old(Owned()) ==> Owned()
    {
      var n := Walk(key);
      StoreHandler(n, key, handler);
    }

    method StoreHandler(n: Node, key: Key, handler: Handler)
      requires Valid() && Known(n) && key in level && level[key] == n && n.top
      modifies n`handler, n`key
      ensures Valid()
      ensures forall k :: EntryAt(k) == if k == key then WithHandler(old(EntryAt(k)), key, handler) else old(EntryAt(k))
    {
      n.handler := Some(handler);
      n.key := Some(Callers(key));
      StoredValid(n);
    }

    /** insert_kv_pair_to_trie: the key gets this value, and no other key changes; returns the key's handler, if it has
        one. The key is copied to the place the node's key pointer leads to: through the caller's own pointer exactly if
        the key has a handler. */
    method InsertKeyValue(key: Key, value: Key) returns (handler: Option<Handler>, throughCaller: bool)
      requires Valid() && NulFree(key) && |key| < 100 && |value| < 100
      modifies this, order
      ensures Valid() && OldOrFresh()
      ensures forall k :: EntryAt(k) == if k == key then WithValue(old(EntryAt(k)), key, value) else old(EntryAt(k))
      ensures forall k :: k != key ==> EntryAt(k) == old(EntryAt(k))
      ensures EntryAt(key) == Entry(handler, Some(value), Some(if throughCaller then Callers(key) else Own(key)))
      ensures handler == old(HandlerAt(key))
      ensures throughCaller <==> old(EntryAt(key)).key.Some? && old(EntryAt(key)).key.value.Callers?
      ensures old(Owned()) ==> Owned() && (throughCaller <==> handler.Some?)
    {
      var n := Walk(key);
      throughCaller := StoreValue(n, key, value);
      handler := n.handler;
    }

    method StoreValue(n: Node, key: Key, value: Key) returns (throughCaller: bool)
      requires Valid() && Known(n) && key in level && level[key] == n && n.top
      modifies n`value, n`key
      ensures Valid()
      ensures forall k :: EntryAt(k) == if k == key then WithValue(old(EntryAt(k)), key, value) else old(EntryAt(k))
      ensures throughCaller <==> old(n.key).Some? && old(n.key).value.Callers?
    {
      n.value := Some(value);
      throughCaller := n.key.Some? && n.key.value.Callers?;
      n.key := Some(if throughCaller then Callers(key) else Own(key));
      StoredValid(n);
    }
  }

  ghost function WithHandler(e: Entry, key: Key, handler: Handler): Entry {
    e.(handler := Some(handler), key := Some(Callers(key)))
  }

  ghost function WithValue(e: Entry, key: Key, value: Key): Entry {
    e.(value := Some(value), key := Some(if e.key.Some? && e.key.value.Callers? then Callers(key) else Own(key)))
  }
}
