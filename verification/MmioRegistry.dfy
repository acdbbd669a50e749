/** The registry of memory-mapped I/O ranges: two search trees ordered by an interval comparison and
    a per-vCPU hint that remembers the last range found in the main tree.

    The trees are search trees without a balance condition; everything is stated about their members
    and their order, which rotations do not change. */
module MmioRegistry {
  import opened Wrappers

  const MAX_CPU := 16
  const U64 := 0x1_0000_0000_0000_0000

  /** A registered range; `id` tells apart ranges with the same parameters.  `end` is its last address,
      as computed from base and size when it was registered. */
  datatype Range = Range(id: nat, name: string, base: nat, size: nat, end: nat, immutable: bool)

  /** The last address of a range, as a 64-bit number. */
  function End(base: nat, size: nat): nat {
    (base + size - 1) % U64
  }

  predicate Wraps(r: Range) {
    r.base + r.size > U64
  }

  /** What a registration may ask for: base and size are 64-bit numbers. */
  predicate Made(r: Range) {
    r.base < U64 && r.size < U64 && r.end == End(r.base, r.size)
  }

  datatype Tree = Leaf | Node(left: Tree, range: Range, right: Tree)

  // ---------------------------------------------------------------------------
  // The comparison and the trees
  // ---------------------------------------------------------------------------

  /** -1, 1 or, for ranges that overlap, 0. */
  function Compare(a: Range, b: Range): int {
    if a.end < b.base then -1 else if a.base > b.end then 1 else 0
  }

  predicate Overlap(a: Range, b: Range) {
    a.base <= b.end && b.base <= a.end
  }

  predicate Covers(r: Range, addr: nat) {
    r.base <= addr <= r.end
  }

  ghost function Members(t: Tree): set<Range> {
    match t
    case Leaf => {}
    case Node(l, r, rt) => Members(l) + {r} + Members(rt)
  }

  /** The end lies at or after the base, or, for an empty range, just before it. */
  predicate Straight(r: Range) {
    r.base <= r.end + 1
  }

  /** Ranges in increasing order, empty ones included. */
  ghost predicate Ordered(t: Tree) {
    match t
    case Leaf => true
    case Node(l, r, rt) =>
      && Straight(r) && Ordered(l) && Ordered(rt)
      && (forall x <- Members(l) :: x.end < r.base) && (forall x <- Members(rt) :: r.end < x.base)
  }

  function Find(t: Tree, key: Range): Option<Range>
    decreases t
  {
    match t
    case Leaf => None
    case Node(l, r, rt) =>
      var c := Compare(key, r);
      if c < 0 then Find(l, key) else if c > 0 then Find(rt, key) else Some(r)
  }

  /** The tree with `new` added, or the range in its way. */
  function Insert(t: Tree, new_: Range): (Tree, Option<Range>)
    decreases t
  {
    match t
    case Leaf => (Node(Leaf, new_, Leaf), None)
    case Node(l, r, rt) =>
      var c := Compare(new_, r);
      if c < 0 then var (l', o) := Insert(l, new_); (Node(l', r, rt), o)
      else if c > 0 then var (rt', o) := Insert(rt, new_); (Node(l, r, rt'), o)
      else (t, Some(r))
  }

  /** The tree without its first range, and that range. */
  function TakeFirst(t: Tree): (Range, Tree)
    requires t.Node?
    decreases t
  {
    if t.left.Leaf? then (t.range, t.right)
    else var (first, l') := TakeFirst(t.left); (first, Node(l', t.range, t.right))
  }

  function Join(l: Tree, rt: Tree): Tree {
    if rt.Leaf? then l
    else if l.Leaf? then rt
    else var (first, rt') := TakeFirst(rt); Node(l, first, rt')
  }

  /** The tree without the range at `key`. */
  function Remove(t: Tree, key: Range): Tree
    decreases t
  {
    match t
    case Leaf => Leaf
    case Node(l, r, rt) =>
      var c := Compare(key, r);
      if c < 0 then Node(Remove(l, key), r, rt)
      else if c > 0 then Node(l, r, Remove(rt, key))
      else Join(l, rt)
  }

  // ---------------------------------------------------------------------------
  // What the tree operations mean
  // ---------------------------------------------------------------------------

  lemma {:induction false} MembersStraight(t: Tree)
    requires Ordered(t)
    ensures forall r <- Members(t) :: Straight(r)
  {
    if t.Node? {
      MembersStraight(t.left);
      MembersStraight(t.right);
    }
  }

  /** The ranges of a tree are pairwise disjoint. */
  lemma {:induction false} Disjoint(t: Tree, a: Range, b: Range)
    requires Ordered(t) && a in Members(t) && b in Members(t) && Overlap(a, b)
    ensures a == b
  {
    MembersStraight(t);
    if a in Members(t.left) && b in Members(t.left) {
      Disjoint(t.left, a, b);
    } else if a in Members(t.right) && b in Members(t.right) {
      Disjoint(t.right, a, b);
    }
  }

  /** A search succeeds iff some member overlaps the key. */
  lemma {:induction false} FindIff(t: Tree, key: Range)
    requires Ordered(t) && key.base <= key.end
    ensures Find(t, key).Some? ==> Find(t, key).value in Members(t) && Overlap(Find(t, key).value, key)
    ensures Find(t, key).None? ==> forall r <- Members(t) :: !Overlap(r, key)
  {
    if t.Node? {
      FindIff(t.left, key);
      FindIff(t.right, key);
    }
  }

  /** A range is inserted iff it overlaps none, and then it is the only change. */
  lemma {:induction false} InsertIff(t: Tree, r: Range)
    requires Ordered(t) && Straight(r)
    ensures var (t', o) := Insert(t, r);
            && Ordered(t')
            && (o.None? ==> Members(t') == Members(t) + {r} && forall x <- Members(t) :: !Overlap(x, r))
            && (o.Some? ==> t' == t && o.value in Members(t) && Overlap(o.value, r))
  {
    if t.Node? {
      var c := Compare(r, t.range);
      if c < 0 {
        InsertIff(t.left, r);
        InsertLeft(t, r, Insert(t.left, r).0);
      } else if c > 0 {
        InsertIff(t.right, r);
        InsertRight(t, r, Insert(t.right, r).0);
      }
    }
  }

  lemma InsertLeft(t: Tree, r: Range, l: Tree)
    requires t.Node? && Ordered(t) && r.end < t.range.base && Ordered(l) && Straight(r)
    requires Members(l) == Members(t.left) + {r} || l == t.left
    ensures Ordered(t.(left := l)) && forall x <- Members(t) | x !in Members(t.left) :: !Overlap(x, r)
    ensures Members(l) == Members(t.left) + {r} ==> Members(t.(left := l)) == Members(t) + {r}
  {
  }

  lemma InsertRight(t: Tree, r: Range, rt: Tree)
    requires t.Node? && Ordered(t) && r.base > t.range.end && Ordered(rt) && Straight(r)
    requires Members(rt) == Members(t.right) + {r} || rt == t.right
    ensures Ordered(t.(right := rt)) && forall x <- Members(t) | x !in Members(t.right) :: !Overlap(x, r)
    ensures Members(rt) == Members(t.right) + {r} ==> Members(t.(right := rt)) == Members(t) + {r}
  {
  }

  lemma {:induction false} TakeFirstMeans(t: Tree)
    requires t.Node? && Ordered(t)
    ensures var (first, rest) := TakeFirst(t);
            && Members(t) == {first} + Members(rest) && Ordered(rest) && Straight(first)
            && forall x <- Members(rest) :: first.end < x.base
  {
    if t.left.Node? {
      TakeFirstMeans(t.left);
    }
  }

  lemma JoinMeans(l: Tree, rt: Tree)
    requires Ordered(l) && Ordered(rt) && forall x, y | x in Members(l) && y in Members(rt) :: x.end < y.base
    ensures Ordered(Join(l, rt)) && Members(Join(l, rt)) == Members(l) + Members(rt)
  {
    if rt.Node? {
      TakeFirstMeans(rt);
    }
  }

  /** The comparison tells in which part of a tree a nonempty member is. */
  lemma Side(t: Tree, r: Range)
    requires Ordered(t) && r in Members(t) && r.base <= r.end
    ensures var c := Compare(r, t.range);
            && (c < 0 <==> r in Members(t.left)) && (c > 0 <==> r in Members(t.right)) && (c == 0 <==> r == t.range)
  {
    MembersStraight(t);
  }

  /** Removing a nonempty member removes it and nothing else. */
  lemma {:induction false} RemoveMeans(t: Tree, r: Range)
    requires Ordered(t) && r in Members(t) && r.base <= r.end
    ensures Ordered(Remove(t, r)) && Members(Remove(t, r)) == Members(t) - {r}
  {
    Side(t, r);
    hide Compare, Join;
    var c := Compare(r, t.range);
    if c < 0 {
      RemoveMeans(t.left, r);
      ReplaceLeft(t, Remove(t.left, r), r);
    } else if c > 0 {
      RemoveMeans(t.right, r);
      ReplaceRight(t, Remove(t.right, r), r);
    } else {
      RemoveRoot(t);
    }
  }

  lemma ReplaceLeft(t: Tree, l: Tree, r: Range)
    requires t.Node? && Ordered(t) && Ordered(l) && Members(l) == Members(t.left) - {r}
    requires r != t.range && r !in Members(t.right)
    ensures Ordered(t.(left := l)) && Members(t.(left := l)) == Members(t) - {r}
  {
  }

  lemma ReplaceRight(t: Tree, rt: Tree, r: Range)
    requires t.Node? && Ordered(t) && Ordered(rt) && Members(rt) == Members(t.right) - {r}
    requires r != t.range && r !in Members(t.left)
    ensures Ordered(t.(right := rt)) && Members(t.(right := rt)) == Members(t) - {r}
  {
  }

  lemma RemoveRoot(t: Tree)
    requires t.Node? && Ordered(t) && t.range.base <= t.range.end
    ensures Ordered(Join(t.left, t.right)) && Members(Join(t.left, t.right)) == Members(t) - {t.range}
  {
    hide Join;
    assert forall x, y | x in Members(t.left) && y in Members(t.right) :: x.end < t.range.base <= t.range.end < y.base;
    MembersStraight(t);
    JoinMeans(t.left, t.right);
    assert t.range !in Members(t.left) && t.range !in Members(t.right);
  }

  /** Rotations, by which a red-black tree keeps its balance, change neither members nor order. */
  lemma Rotation(a: Tree, x: Range, b: Tree, y: Range, c: Tree)
    ensures Members(Node(a, x, Node(b, y, c))) == Members(Node(Node(a, x, b), y, c))
    ensures Ordered(Node(a, x, Node(b, y, c))) <==> Ordered(Node(Node(a, x, b), y, c))
  {
    if Ordered(Node(a, x, Node(b, y, c))) {
      RotateLeft(a, x, b, y, c);
    }
    if Ordered(Node(Node(a, x, b), y, c)) {
      RotateRight(a, x, b, y, c);
    }
    hide Ordered;
    var p, q := Node(a, x, Node(b, y, c)), Node(Node(a, x, b), y, c);
    assert Members(p) == Members(a) + {x} + (Members(b) + {y} + Members(c));
    assert Members(q) == Members(a) + {x} + Members(b) + {y} + Members(c);
  }

  lemma RotateLeft(a: Tree, x: Range, b: Tree, y: Range, c: Tree)
    requires Ordered(Node(a, x, Node(b, y, c)))
    ensures Ordered(Node(Node(a, x, b), y, c))
  {
    var right := Node(b, y, c);
    assert y in Members(right) && forall z <- Members(b) :: z in Members(right);
    var left := Node(a, x, b);
    assert x.end < y.base && forall z <- Members(a) :: z.end < x.base;
    forall z | z in Members(left)
      ensures z.end < y.base
    {
    }
  }

  lemma RotateRight(a: Tree, x: Range, b: Tree, y: Range, c: Tree)
    requires Ordered(Node(Node(a, x, b), y, c))
    ensures Ordered(Node(a, x, Node(b, y, c)))
  {
    var left := Node(a, x, b);
    assert x in Members(left) && forall z <- Members(b) :: z in Members(left);
    var right := Node(b, y, c);
    assert x.end < y.base && forall z <- Members(c) :: y.end < z.base;
    forall z | z in Members(right)
      ensures x.end < z.base
    {
    }
  }

  // ---------------------------------------------------------------------------
  // The registry
  // ---------------------------------------------------------------------------

  datatype Status = Success | Exists | NotFound | Aborted

  datatype Registry = Registry(root: Tree, fallback: Tree, hints: seq<Option<Range>>)

  function Point(addr: nat): Range {
    Range(0, "", addr, 1, addr, false)
  }

  function Lookup(t: Tree, addr: nat): Option<Range> {
    Find(t, Point(addr))
  }

  /** A range that begins inside a registered one is dropped silently; one that overlaps otherwise is
      refused. */
  function Registered(t: Tree, r: Range): (Tree, Status) {
    if Lookup(t, r.base).Some? then (t, Success)
    else
      var (t', overlap) := Insert(t, r);
      if overlap.Some? then (t, Exists) else (t', Success)
  }

  function TreeOf(s: Registry, main: bool): Tree {
    if main then s.root else s.fallback
  }

  function Register(s: Registry, main: bool, r: Range): (Registry, Status) {
    var (t, status) := Registered(TreeOf(s, main), r);
    (if main then s.(root := t) else s.(fallback := t), status)
  }

  function WithoutHint(hints: seq<Option<Range>>, r: Range): (h: seq<Option<Range>>)
    ensures |h| == |hints| && forall i | 0 <= i < |h| :: h[i] == if hints[i] == Some(r) then None else hints[i]
  {
    seq(|hints|, i requires 0 <= i < |hints| => if hints[i] == Some(r) then None else hints[i])
  }

  /** Removing requires the parameters the range was registered with; an immutable range stays. */
  function Unregister(s: Registry, name: string, base: nat, size: nat): (Registry, Status) {
    match Lookup(s.root, base)
    case None => (s, NotFound)
    case Some(r) =>
      if r.name != name || r.base != base || r.size != size || r.immutable then (s, Aborted)
      else (s.(root := Remove(s.root, r), hints := WithoutHint(s.hints, r)), Success)
  }

  /** The range that serves an access, found without the hint. */
  function Fresh(s: Registry, addr: nat): Option<Range> {
    if Lookup(s.root, addr).Some? then Lookup(s.root, addr) else Lookup(s.fallback, addr)
  }

  /** An access by a vCPU: the hint first, then the main tree, then the fallback tree. */
  function Access(s: Registry, vcpu: nat, addr: nat): (Registry, Option<Range>)
    requires vcpu < |s.hints|
  {
    if s.hints[vcpu].Some? && Covers(s.hints[vcpu].value, addr) then (s, s.hints[vcpu])
    else if Lookup(s.root, addr).Some? then
      (s.(hints := s.hints[vcpu := Lookup(s.root, addr)]), Lookup(s.root, addr))
    else (s, Lookup(s.fallback, addr))
  }

  /** Every hint is empty or a live member of the main tree. */
  ghost predicate HintsLive(s: Registry) {
    |s.hints| == MAX_CPU && forall i | 0 <= i < |s.hints| && s.hints[i].Some? :: s.hints[i].value in Members(s.root)
  }

  ghost predicate Inv(s: Registry) {
    Ordered(s.root) && Ordered(s.fallback) && HintsLive(s)
  }

  lemma LookupIff(t: Tree, addr: nat)
    requires Ordered(t)
    ensures forall r :: Lookup(t, addr) == Some(r) <==> r in Members(t) && Covers(r, addr)
  {
    FindIff(t, Point(addr));
    forall r | r in Members(t) && Covers(r, addr)
      ensures Lookup(t, addr) == Some(r)
    {
      Disjoint(t, r, Find(t, Point(addr)).value);
    }
  }

  /** The end lies before the base exactly for wrapping ranges and, by one, for empty ones; an empty range
      at address 0 ends at the last address of all. */
  lemma EndIs(r: Range)
    requires Made(r)
    ensures Straight(r) <==> !Wraps(r)
    ensures r.size > 0 && !Wraps(r) ==> r.end == r.base + r.size - 1
    ensures r.size == 0 && r.base > 0 ==> r.end == r.base - 1
  {
  }

  ghost predicate BeginsInside(t: Tree, r: Range) {
    exists x <- Members(t) :: Covers(x, r.base)
  }

  ghost predicate Clashes(t: Tree, r: Range) {
    exists x <- Members(t) :: Overlap(x, r)
  }

  /** Exactly the ranges that overlap none and begin in none are added; the status is an error for those
      that overlap some but begin in none. */
  lemma RegisterIff(t: Tree, r: Range)
    requires Ordered(t) && Straight(r)
    ensures var (t', status) := Registered(t, r);
            && Ordered(t')
            && (if Clashes(t, r) || BeginsInside(t, r) then t' == t else Members(t') == Members(t) + {r})
            && status == (if Clashes(t, r) && !BeginsInside(t, r) then Exists else Success)
  {
    LookupIff(t, r.base);
    InsertIff(t, r);
    hide Members, Ordered;
    if Lookup(t, r.base).Some? {
      var x := Lookup(t, r.base).value;
      assert Covers(x, r.base);
    }
  }

  /** [5, 14] after [0, 9]: success is reported, but the range is not there. */
  lemma DroppedSilently(a: Range, b: Range)
    requires a.base == 0 && a.end == 9 && b.base == 5 && b.end == 14
    ensures var t := Registered(Leaf, a).0;
            && Members(t) == {a} && Registered(t, b) == (t, Success) && b !in Members(t)
  {
    assert Registered(Leaf, a).0 == Node(Leaf, a, Leaf);
  }

  lemma RegisterInv(s: Registry, main: bool, r: Range)
    requires Inv(s) && Straight(r)
    ensures Inv(Register(s, main, r).0)
  {
    RegisterIff(TreeOf(s, main), r);
    hide Registered;
  }

  // ---------------------------------------------------------------------------
  // Wrapping ranges
  // ---------------------------------------------------------------------------

  /** A wrapping range that begins in no member is added. */
  lemma {:induction false} WrappingAdded(t: Tree, r: Range)
    requires Ordered(t) && !Straight(r) && !BeginsInside(t, r)
    ensures Insert(t, r).1.None? && Members(Insert(t, r).0) == Members(t) + {r}
  {
    if t.Node? {
      assert !Covers(t.range, r.base);
      if Compare(r, t.range) < 0 {
        assert forall x <- Members(t.left) :: x in Members(t);
        WrappingAdded(t.left, r);
      } else {
        assert forall x <- Members(t.right) :: x in Members(t);
        WrappingAdded(t.right, r);
      }
    }
  }

  /** Registering a wrapping range keeps the order exactly if the range begins inside a member. */
  lemma WrappingIff(s: Registry, main: bool, r: Range)
    requires Inv(s) && !Straight(r)
    ensures Inv(Register(s, main, r).0) <==> BeginsInside(TreeOf(s, main), r)
  {
    var t := TreeOf(s, main);
    LookupIff(t, r.base);
    if BeginsInside(t, r) {
      var x :| x in Members(t) && Covers(x, r.base);
      assert Lookup(t, r.base) == Some(x);
    } else {
      WrappingAdded(t, r);
      var t' := Registered(t, r).0;
      if Ordered(t') {
        MembersStraight(t');
      }
    }
  }

  /** Registering `q` makes it a member that some access to its addresses does not find. */
  ghost predicate Loses(t: Tree, q: Range) {
    var t' := Registered(t, q).0;
    q in Members(t') && exists addr: nat | Covers(q, addr) :: Lookup(t', addr) != Some(q)
  }

  /** Every member begins after the base of `r`, or begins by its end and leaves a gap before its base. */
  ghost predicate Exposed(t: Tree, r: Range) {
    forall y <- Members(t) :: r.base < y.base || (y.base <= r.end && y.end + 1 < r.base)
  }

  /** A wrapping range covers no address, so accesses pass it by. */
  lemma {:induction false} LookupPasses(t: Tree, r: Range, addr: nat)
    requires !Straight(r)
    ensures Lookup(Insert(t, r).0, addr) == Lookup(t, addr)
  {
    if t.Node? {
      LookupPasses(t.left, r, addr);
      LookupPasses(t.right, r, addr);
    }
  }

  /** Below an exposed wrapping range, a range across its base goes to the right and the accesses before
      its base to the left. */
  lemma {:induction false} AcrossIsLost(t: Tree, r: Range, q: Range)
    requires !Straight(r) && Exposed(t, r) && q.base == r.base - 1 && q.end == r.base
    ensures
      var (t', o) := Insert(Insert(t, r).0, q);
      && Lookup(t, q.base).None? && o.None? && q in Members(t') && Lookup(t', q.base).None?
  {
    if t.Node? {
      assert t.range in Members(t);
      if r.base < t.range.base {
        assert forall x <- Members(t.left) :: x in Members(t);
        AcrossIsLost(t.left, r, q);
      } else {
        assert forall x <- Members(t.right) :: x in Members(t);
        AcrossIsLost(t.right, r, q);
      }
    }
  }

  /** Only ranges across the base of an exposed wrapping range are lost. */
  lemma {:induction false} LostIsAcross(t: Tree, r: Range, q: Range, addr: nat)
    requires Ordered(t) && !Straight(r) && !BeginsInside(t, r) && q.base <= q.end && Covers(q, addr)
    requires
      var (t', o) := Insert(Insert(t, r).0, q);
      o.None? && Lookup(t', addr) != Some(q)
    ensures r.end < q.base < r.base <= q.end && Exposed(t, r)
  {
    if t.Leaf? {
      var right := Insert(Leaf, q).0;
      assert Insert(t, r).0 == Node(Leaf, r, Leaf) && right == Node(Leaf, q, Leaf);
      assert Lookup(right, addr) == Some(q);
    } else {
      var y := t.range;
      assert forall x | x in Members(t.left) || x in Members(t.right) :: x in Members(t);
      assert !Covers(y, r.base);
      if (Compare(r, y) < 0) != (Compare(q, y) < 0) {
        FoundElsewhere(if Compare(q, y) < 0 then t.left else t.right, q, addr);
      } else if Compare(q, y) < 0 {
        LostIsAcross(t.left, r, q, addr);
        ExposedAround(t, r, q);
      } else {
        LostIsAcross(t.right, r, q, addr);
        ExposedAround(t, r, q);
      }
    }
  }

  /** A tree is exposed if the subtree that takes both ranges is. */
  lemma ExposedAround(t: Tree, r: Range, q: Range)
    requires t.Node? && Ordered(t) && r.end < q.base < r.base <= q.end
    requires (q.end < t.range.base && Exposed(t.left, r)) ||
             (t.range.base <= r.end && t.range.end < q.base && Exposed(t.right, r))
    ensures Exposed(t, r)
  {
    MembersStraight(t.left);
  }

  lemma FoundElsewhere(t: Tree, q: Range, addr: nat)
    requires Ordered(t) && q.base <= q.end && Covers(q, addr)
    ensures var (t', o) := Insert(t, q); o.None? ==> Lookup(t', addr) == Some(q)
  {
    InsertIff(t, q);
    LookupIff(Insert(t, q).0, addr);
  }

  /** After a wrapping range has been added, some next range can be registered and not be found exactly if
      no member begins between end and base of the wrapping range, and none ends just before its base. */
  lemma LosesIff(t: Tree, r: Range)
    requires Ordered(t) && !Straight(r) && !BeginsInside(t, r)
    ensures (exists q: Range | q.base <= q.end :: Loses(Registered(t, r).0, q)) <==> Exposed(t, r)
  {
    var t1 := Registered(t, r).0;
    LookupIff(t, r.base);
    WrappingAdded(t, r);
    assert t1 == Insert(t, r).0;
    if Exposed(t, r) {
      var q := Range(0, "", r.base - 1, 2, r.base, false);
      AcrossIsLost(t, r, q);
      LookupPasses(t, r, q.base);
      assert Covers(q, q.base) && Loses(t1, q);
    }
    forall q: Range | q.base <= q.end && Loses(t1, q)
      ensures Exposed(t, r)
    {
      var addr: nat :| Covers(q, addr) && Lookup(Registered(t1, q).0, addr) != Some(q);
      NewlyLost(t, r, q, addr);
      LostIsAcross(t, r, q, addr);
    }
  }

  /** What was there before the wrapping range is still found, so only a new range can be lost. */
  lemma NewlyLost(t: Tree, r: Range, q: Range, addr: nat)
    requires Ordered(t) && !Straight(r) && !BeginsInside(t, r) && q.base <= q.end && Covers(q, addr)
    requires
      var t1 := Insert(t, r).0;
      q in Members(Registered(t1, q).0) && Lookup(Registered(t1, q).0, addr) != Some(q)
    ensures
      var t1 := Insert(t, r).0;
      Insert(t1, q).1.None? && Registered(t1, q).0 == Insert(t1, q).0
  {
    var t1 := Insert(t, r).0;
    WrappingAdded(t, r);
    if Registered(t1, q).0 == t1 {
      LookupPasses(t, r, addr);
      LookupIff(t, addr);
    }
  }

  /** A range with base 10 that wraps to end 5, then [7, 12]: both registrations report success and add
      their range, but an access to address 8 finds nothing. */
  lemma WrappingHides(r: Range, q: Range)
    requires Made(r) && r.base == 10 && r.size == U64 - 4 && q.base == 7 && q.end == 12
    ensures
      var (t, first) := Registered(Leaf, r);
      var (t', second) := Registered(t, q);
      && first.Success? && second.Success? && Members(t') == {r, q} && Covers(q, 8) && Lookup(t', 8).None?
  {
    assert r.end == 5;
    assert Registered(Leaf, r).0 == Node(Leaf, r, Leaf);
    LookupPasses(Leaf, r, 7);
    assert Find(Leaf, Point(7)).None? && Find(Leaf, Point(8)).None? && Insert(Leaf, q) == (Node(Leaf, q, Leaf), None);
    assert Insert(Node(Leaf, r, Leaf), q) == (Node(Leaf, r, Node(Leaf, q, Leaf)), None);
  }

  // ---------------------------------------------------------------------------
  // Hints and removal
  // ---------------------------------------------------------------------------

  /** A hinted access finds what a fresh search would, and keeps the hints live. */
  lemma HintAgrees(s: Registry, vcpu: nat, addr: nat)
    requires Inv(s) && vcpu < MAX_CPU
    ensures var (s', found) := Access(s, vcpu, addr); found == Fresh(s, addr) && Inv(s')
  {
    LookupIff(s.root, addr);
    hide Members, Ordered, Lookup;
  }

  /** The nonempty range that these parameters remove. */
  predicate Removable(r: Range, name: string, base: nat, size: nat) {
    r.base == base <= r.end && r.name == name && r.size == size && !r.immutable
  }

  /** A removal takes out exactly the removable range, and is refused if there is none. */
  lemma UnregisterInv(s: Registry, name: string, base: nat, size: nat)
    requires Inv(s)
    ensures Inv(Unregister(s, name, base, size).0)
    ensures var (s', status) := Unregister(s, name, base, size);
            && (status.NotFound? <==> forall r <- Members(s.root) :: !Covers(r, base))
            && (status.Success? <==> exists r <- Members(s.root) :: Removable(r, name, base, size))
            && (forall r <- Members(s.root) | Removable(r, name, base, size) :: Members(s'.root) == Members(s.root) - {r})
            && (!status.Success? ==> s' == s) && !status.Exists?
  {
    LookupIff(s.root, base);
    var s' := Unregister(s, name, base, size).0;
    hide Ordered, Members;
    if Unregister(s, name, base, size).1.Success? {
      var r := Lookup(s.root, base).value;
      RemoveMeans(s.root, r);
      assert forall i | 0 <= i < |s'.hints| && s'.hints[i].Some? :: s.hints[i] == s'.hints[i] && s'.hints[i].value != r;
    }
  }

  // ---------------------------------------------------------------------------
  // Whole runs
  // ---------------------------------------------------------------------------

  datatype Step =
    | Add(main: bool, r: Range)
    | Delete(name: string, base: nat, size: nat)
    | Touch(vcpu: nat, addr: nat)

  predicate Enabled(step: Step) {
    match step
    case Add(_, r) => Made(r)
    case Delete(_, _, _) => true
    case Touch(vcpu, _) => vcpu < MAX_CPU
  }

  function Apply(s: Registry, step: Step): Registry
    requires Enabled(step) && |s.hints| == MAX_CPU
  {
    match step
    case Add(main, r) => Register(s, main, r).0
    case Delete(name, base, size) => Unregister(s, name, base, size).0
    case Touch(vcpu, addr) => Access(s, vcpu, addr).0
  }

  function Empty(): Registry {
    Registry(Leaf, Leaf, seq(MAX_CPU, _ => None))
  }

  function Play(steps: seq<Step>): (s: Registry)
    requires forall step <- steps :: Enabled(step)
    ensures |s.hints| == MAX_CPU
  {
    if steps == [] then Empty()
    else
      assert steps[|steps| - 1] in steps;
      Apply(Play(steps[..|steps| - 1]), steps[|steps| - 1])
  }

  /** A wrapping range is registered only where it begins inside a member, and so is dropped. */
  ghost predicate Harmless(s: Registry, step: Step) {
    step.Add? && Wraps(step.r) ==> BeginsInside(TreeOf(s, step.main), step.r)
  }

  lemma StepInvIff(s: Registry, step: Step)
    requires Inv(s) && Enabled(step)
    ensures Inv(Apply(s, step)) <==> Harmless(s, step)
  {
    match step
    case Add(main, r) =>
      EndIs(r);
      if Wraps(r) {
        WrappingIff(s, main, r);
      } else {
        RegisterInv(s, main, r);
      }
    case Delete(name, base, size) => UnregisterInv(s, name, base, size);
    case Touch(vcpu, addr) => HintAgrees(s, vcpu, addr);
  }

  lemma PlayNext(steps: seq<Step>, k: nat)
    requires k < |steps| && forall step <- steps :: Enabled(step)
    ensures forall step <- steps[..k] :: Enabled(step)
    ensures Play(steps[..k + 1]) == Apply(Play(steps[..k]), steps[k])
  {
    assert steps[..k + 1][..k] == steps[..k];
  }

  ghost predicate AllHarmless(steps: seq<Step>)
    requires forall step <- steps :: Enabled(step)
  {
    forall k | 0 <= k < |steps| :: Harmless(Play(steps[..k]), steps[k])
  }

  /** The trees stay ordered throughout a sequence of registrations, removals and accesses exactly if
      every wrapping range in it is harmless. */
  lemma {:induction false} OrderKeptIff(steps: seq<Step>)
    requires forall step <- steps :: Enabled(step)
    ensures AllHarmless(steps) <==> forall k | 0 <= k <= |steps| :: Inv(Play(steps[..k]))
  {
    hide Inv, Harmless;
    if AllHarmless(steps) {
      forall k | 0 <= k <= |steps|
        ensures Inv(Play(steps[..k]))
      {
        RunInv(steps, k);
      }
    }
    if forall k | 0 <= k <= |steps| :: Inv(Play(steps[..k])) {
      forall k | 0 <= k < |steps|
        ensures Harmless(Play(steps[..k]), steps[k])
      {
        PlayNext(steps, k);
        StepInvIff(Play(steps[..k]), steps[k]);
      }
    }
  }

  lemma {:induction false} RunInv(steps: seq<Step>, k: nat)
    requires (forall step <- steps :: Enabled(step)) && AllHarmless(steps) && k <= |steps|
    ensures Inv(Play(steps[..k]))
  {
    if k > 0 {
      RunInv(steps, k - 1);
      PlayNext(steps, k - 1);
      StepInvIff(Play(steps[..k - 1]), steps[k - 1]);
    }
  }

  /** After any sequence of registrations, removals and accesses in which wrapping ranges are harmless,
      the ranges of each tree are pairwise disjoint, and every access finds the range that covers its
      address, in the main tree if there is one there, hint or not. */
  lemma AlwaysConsistent(steps: seq<Step>)
    requires (forall step <- steps :: Enabled(step)) && AllHarmless(steps)
    ensures
      var s := Play(steps);
      && Inv(s)
      && (forall main, a, b | a in Members(TreeOf(s, main)) && b in Members(TreeOf(s, main)) && Overlap(a, b) :: a == b)
      && (forall vcpu: nat, addr: nat | vcpu < MAX_CPU ::
            Finds(s, addr, Access(s, vcpu, addr).1) && Access(s, vcpu, addr).1 == Fresh(s, addr))
  {
    var s := Play(steps);
    assert steps[..|steps|] == steps;
    RunInv(steps, |steps|);
    hide Play, AllHarmless;
    forall main, a, b | a in Members(TreeOf(s, main)) && b in Members(TreeOf(s, main)) && Overlap(a, b) ensures a == b {
      Disjoint(TreeOf(s, main), a, b);
    }
    forall vcpu: nat, addr: nat | vcpu < MAX_CPU
      ensures Finds(s, addr, Access(s, vcpu, addr).1) && Access(s, vcpu, addr).1 == Fresh(s, addr)
    {
      HintAgrees(s, vcpu, addr);
      FreshFinds(s, addr);
    }
  }

  /** `found` is the range that serves `addr`. */
  ghost predicate Finds(s: Registry, addr: nat, found: Option<Range>) {
    match found
    case Some(r) =>
      && Covers(r, addr)
      && (r in Members(s.root) || (r in Members(s.fallback) && forall x <- Members(s.root) :: !Covers(x, addr)))
    case None => forall x | x in Members(s.root) || x in Members(s.fallback) :: !Covers(x, addr)
  }

  lemma FreshFinds(s: Registry, addr: nat)
    requires Inv(s)
    ensures Finds(s, addr, Fresh(s, addr))
  {
    LookupIff(s.root, addr);
    LookupIff(s.fallback, addr);
    hide Members, Ordered, Lookup;
  }

  // ---------------------------------------------------------------------------
  // The registry, updated in place
  // ---------------------------------------------------------------------------

  class MmioMap {
    var root: Tree
    var fallback: Tree
    const hint: array<Option<Range>>
    var nextId: nat

    ghost function View(): Registry
      reads this, hint
    {
      Registry(root, fallback, hint[..])
    }

    constructor ()
      ensures View() == Empty() && fresh(hint) && Inv(View())
    {
      root, fallback, nextId := Leaf, Leaf, 0;
      hint := new Option<Range>[MAX_CPU](_ => None);
      new;
      assert hint[..] == Empty().hints;
    }

    /** Registers a range; `base` and `size` are 64-bit numbers, and the end wraps.  The order is kept
        unless a wrapping range is added. */
    method RegisterMem(main: bool, name: string, base: nat, size: nat, immutable: bool) returns (status: Status)
      requires Inv(View()) && base < U64 && size < U64
      modifies this
      ensures (View(), status) == Register(old(View()), main, Range(old(nextId), name, base, size, End(base, size), immutable))
      ensures Inv(View()) <==> base + size <= U64 || exists x <- Members(old(if main then root else fallback)) :: Covers(x, base)
    {
      var r := Range(nextId, name, base, size, End(base, size), immutable);
      StepInvIff(View(), Add(main, r));
      assert Harmless(View(), Add(main, r)) <==> base + size <= U64 || exists x <- Members(if main then root else fallback) :: Covers(x, base);
      hide Ordered, Members, End;
      nextId := nextId + 1;
      status := Success;
      if Lookup(if main then root else fallback, base).None? {
        var (t, overlap) := Insert(if main then root else fallback, r);
        if overlap.Some? {
          status := Exists;
        } else if main {
          root := t;
        } else {
          fallback := t;
        }
      }
    }

    method UnregisterMem(name: string, base: nat, size: nat) returns (status: Status)
      requires Inv(View())
      modifies this, hint
      ensures Inv(View()) && (View(), status) == Unregister(old(View()), name, base, size)
    {
      UnregisterInv(View(), name, base, size);
      hide Ordered, Members;
      var entry := Lookup(root, base);
      if entry.None? {
        return NotFound;
      }
      var r := entry.value;
      if r.name != name || r.base != base || r.size != size || r.immutable {
        return Aborted;
      }
      root := Remove(root, r);
      for i := 0 to MAX_CPU
        invariant forall k | 0 <= k < i :: hint[k] == if old(hint[k]) == Some(r) then None else old(hint[k])
        invariant forall k | i <= k < MAX_CPU :: hint[k] == old(hint[k])
        invariant root == Remove(old(root), r) && fallback == old(fallback)
      {
        if hint[i] == entry {
          hint[i] := None;
        }
      }
      assert hint[..] == WithoutHint(old(hint[..]), r);
      status := Success;
    }

    /** Finds the range for an access; none stands for the error ESRCH. */
    method EmulateMem(vcpu: nat, addr: nat) returns (entry: Option<Range>)
      requires Inv(View()) && vcpu < MAX_CPU
      modifies hint
      ensures Inv(View()) && entry == Fresh(old(View()), addr)
      ensures (View(), entry) == Access(old(View()), vcpu, addr)
    {
      HintAgrees(View(), vcpu, addr);
      hide Ordered, Members;
      if hint[vcpu].Some? && Covers(hint[vcpu].value, addr) {
        return hint[vcpu];
      }
      entry := Lookup(root, addr);
      if entry.Some? {
        hint[vcpu] := entry;
        assert hint[..] == old(hint[..])[vcpu := entry];
      } else {
        entry := Lookup(fallback, addr);
      }
    }
  }
}
