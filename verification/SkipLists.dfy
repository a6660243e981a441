/**
 skiplist.h: the list behind the memtable. One writer at a time; readers run without locks.

 Pointers are indices into the arena; index 0 is the head node and NIL the null pointer. `levels[l]` is the set of
 nodes linked at level l.
 */
module SkipLists {
  import opened Entries

  const MAX_HEIGHT: nat := 12
  const HEAD: nat := 0
  const NIL: int := -1

  datatype Arena = Arena(keys: seq<int>, next: seq<seq<int>>, maxHeight: nat)

  type LevelSets = seq<set<nat>>

  /** Node m comes after node n; the head comes before every node. */
  predicate After(a: Arena, n: nat, m: nat)
    requires n < |a.keys| && m < |a.keys|
  {
    n == HEAD || a.keys[n] < a.keys[m]
  }

  predicate Nodes(a: Arena, s: set<nat>) {
    forall n :: n in s ==> 0 < n < |a.keys|
  }

  /** x is the first node of s after n, or NIL if there is none. */
  predicate IsSuccessor(a: Arena, s: set<nat>, n: nat, x: int)
    requires Nodes(a, s) && n < |a.keys|
  {
    if x == NIL then forall m :: m in s ==> !After(a, n, m)
    else
      && 0 <= x && x as nat in s && After(a, n, x as nat)
      && forall m :: m in s && After(a, n, m) ==> a.keys[x] <= a.keys[m]
  }

  predicate Shaped(a: Arena, levels: LevelSets) {
    && |a.keys| == |a.next| && |a.keys| > 0 && |a.next[HEAD]| == MAX_HEIGHT
    && 1 <= a.maxHeight <= MAX_HEIGHT && |levels| == MAX_HEIGHT
    && forall l :: 0 <= l < MAX_HEIGHT ==> Nodes(a, levels[l]) && forall n :: n in levels[l] ==> l < |a.next[n]|
  }

  predicate DistinctKeys(a: Arena, s: set<nat>)
    requires Nodes(a, s)
  {
    forall m, n :: m in s && n in s && a.keys[m] == a.keys[n] ==> m == n
  }

  /** Every level is linked in key order. */
  ghost predicate Linked(a: Arena, levels: LevelSets)
    requires Shaped(a, levels)
  {
    forall l, n :: 0 <= l < MAX_HEIGHT && (n in levels[l] || n == HEAD) ==> IsSuccessor(a, levels[l], n, a.next[n][l])
  }

  /** Every level is a part of the one below, and nothing is linked above max_height_. */
  predicate Nested(a: Arena, levels: LevelSets)
    requires Shaped(a, levels)
  {
    && (forall l, m :: 0 <= l <= m < MAX_HEIGHT ==> levels[m] <= levels[l])
    && (forall l :: a.maxHeight <= l < MAX_HEIGHT ==> levels[l] == {})
  }

  ghost predicate Good(a: Arena, levels: LevelSets) {
    Shaped(a, levels) && DistinctKeys(a, levels[0]) && Linked(a, levels) && Nested(a, levels)
  }

  // ----- a level as a list

  /** The nodes of s after n. */
  function Beyond(a: Arena, s: set<nat>, n: nat): set<nat>
    requires Nodes(a, s) && n < |a.keys|
  {
    set m | m in s && After(a, n, m)
  }

  lemma {:induction false} BeyondShrinks(a: Arena, s: set<nat>, n: nat, x: nat)
    requires Nodes(a, s) && n < |a.keys| && x in s && IsSuccessor(a, s, n, x)
    ensures Beyond(a, s, x) < Beyond(a, s, n)
    ensures forall m :: m in Beyond(a, s, n) && a.keys[m] != a.keys[x] ==> m in Beyond(a, s, x)
  {
    assert x in Beyond(a, s, n) && x !in Beyond(a, s, x);
  }

  /** The nodes met by following the pointers of a level from n on. */
  ghost function Walk(a: Arena, levels: LevelSets, l: nat, n: nat): seq<nat>
    requires Shaped(a, levels) && Linked(a, levels) && l < MAX_HEIGHT && (n in levels[l] || n == HEAD)
    decreases Beyond(a, levels[l], n)
  {
    var x := a.next[n][l];
    assert IsSuccessor(a, levels[l], n, x);
    if x == NIL then []
    else
      BeyondShrinks(a, levels[l], n, x);
      [x as nat] + Walk(a, levels, l, x)
  }

  /** w lists the nodes of s after n, in ascending key order. */
  ghost predicate Lists(a: Arena, s: set<nat>, n: nat, w: seq<nat>)
    requires Nodes(a, s) && n < |a.keys|
  {
    && (forall m :: m in w <==> m in s && After(a, n, m))
    && (forall i :: 0 <= i < |w| ==> w[i] < |a.keys|)
    && (forall i, j :: 0 <= i < j < |w| ==> a.keys[w[i]] < a.keys[w[j]])
  }

  /** Following the pointers of a level visits exactly its nodes, in ascending key order. */
  lemma {:induction false} WalkIsSorted(a: Arena, levels: LevelSets, l: nat, n: nat)
    requires Good(a, levels) && l < MAX_HEIGHT && (n in levels[l] || n == HEAD)
    ensures Lists(a, levels[l], n, Walk(a, levels, l, n))
    decreases Beyond(a, levels[l], n)
  {
    var x := a.next[n][l];
    assert IsSuccessor(a, levels[l], n, x);
    LevelIsDistinct(a, levels, l);
    if x != NIL {
      BeyondShrinks(a, levels[l], n, x);
      WalkIsSorted(a, levels, l, x);
      hide Lists;
      hide Linked;
      hide Nested;
      hide DistinctKeys;
      WalkStep(a, levels[l], n, x, Walk(a, levels, l, x));
    }
  }

  lemma {:induction false} WalkStep(a: Arena, s: set<nat>, n: nat, x: nat, rest: seq<nat>)
    requires Nodes(a, s) && n < |a.keys| && x in s && IsSuccessor(a, s, n, x) && DistinctKeys(a, s)
    requires Lists(a, s, x, rest)
    ensures Lists(a, s, n, [x] + rest)
  {
    forall i | 0 <= i < |rest| ensures a.keys[x] < a.keys[rest[i]] {
      assert rest[i] in rest;
    }
  }

  // ----- the stores of Insert

  /** x.NoBarrier_SetNext or prev.SetNext. */
  function Store(a: Arena, n: nat, l: nat, x: int): Arena
    requires n < |a.next| && l < |a.next[n]|
  {
    a.(next := a.next[n := a.next[n][l := x]])
  }

  /** A new node; its pointers are not initialised. */
  function Allocate(a: Arena, key: int, pointers: seq<int>): Arena {
    a.(keys := a.keys + [key], next := a.next + [pointers])
  }

  /** p is the last node of level l before the key. */
  predicate IsPredecessor(a: Arena, s: set<nat>, p: nat, key: int)
    requires Nodes(a, s)
  {
    && (p == HEAD || (p in s && a.keys[p] < key)) && p < |a.keys|
    && forall m :: m in s && After(a, p, m) ==> key < a.keys[m]
  }

  lemma {:induction false} RaiseKeepsGood(a: Arena, levels: LevelSets, height: nat)
    requires Good(a, levels) && a.maxHeight <= height <= MAX_HEIGHT
    ensures Good(a.(maxHeight := height), levels)
  {
    var b := a.(maxHeight := height);
    forall l, n | 0 <= l < MAX_HEIGHT && (n in levels[l] || n == HEAD)
      ensures IsSuccessor(b, levels[l], n, b.next[n][l])
    {
      assert IsSuccessor(a, levels[l], n, a.next[n][l]);
    }
  }

  lemma {:induction false} AllocateKeepsGood(a: Arena, levels: LevelSets, key: int, pointers: seq<int>)
    requires Good(a, levels)
    ensures Good(Allocate(a, key, pointers), levels)
  {
    var b := Allocate(a, key, pointers);
    forall l, n | 0 <= l < MAX_HEIGHT && (n in levels[l] || n == HEAD)
      ensures IsSuccessor(b, levels[l], n, b.next[n][l])
    {
      assert IsSuccessor(a, levels[l], n, a.next[n][l]);
    }
  }

  /** Writing a pointer of a node that is not linked at that level changes nothing a reader can see. */
  lemma {:induction false} PrepareKeepsGood(a: Arena, levels: LevelSets, x: nat, l: nat, p: int)
    requires Good(a, levels) && 0 < x < |a.keys| && l < |a.next[x]| && (l < MAX_HEIGHT ==> x !in levels[l])
    ensures Good(Store(a, x, l, p), levels)
  {
    var b := Store(a, x, l, p);
    forall k, n | 0 <= k < MAX_HEIGHT && (n in levels[k] || n == HEAD)
      ensures IsSuccessor(b, levels[k], n, b.next[n][k])
    {
      assert IsSuccessor(a, levels[k], n, a.next[n][k]);
    }
  }

  lemma {:induction false} PublishedAtNew(a: Arena, s: set<nat>, x: nat, p: nat, y: int)
    requires Nodes(a, s) && 0 < x < |a.keys| && x !in s && IsPredecessor(a, s, p, a.keys[x]) && IsSuccessor(a, s, p, y)
    ensures Nodes(a, s + {x}) && IsSuccessor(a, s + {x}, x, y) && IsSuccessor(a, s + {x}, p, x)
  {
  }

  lemma {:induction false} PublishedElsewhere(a: Arena, s: set<nat>, x: nat, p: nat, n: nat, y: int)
    requires Nodes(a, s) && 0 < x < |a.keys| && x !in s && IsPredecessor(a, s, p, a.keys[x]) && DistinctKeys(a, s)
    requires n != x && n != p && (n in s || n == HEAD) && IsSuccessor(a, s, n, y)
    ensures Nodes(a, s + {x}) && IsSuccessor(a, s + {x}, n, y)
  {
    if After(a, n, x) {
      assert n in s ==> (After(a, p, n) ==> a.keys[x] < a.keys[n]);
      assert p in s && After(a, n, p);
    }
  }

  lemma {:induction false} SameKeysSameSuccessor(a: Arena, b: Arena, s: set<nat>, n: nat, x: int)
    requires a.keys == b.keys && Nodes(a, s) && n < |a.keys|
    ensures Nodes(b, s) && (IsSuccessor(b, s, n, x) <==> IsSuccessor(a, s, n, x))
  {
  }

  /** Linking x at level l behind its predecessor makes it part of the level, in order. */
  lemma {:induction false} PublishKeepsLinked(a: Arena, levels: LevelSets, x: nat, l: nat, p: nat)
    requires Shaped(a, levels) && Linked(a, levels) && l < MAX_HEIGHT && DistinctKeys(a, levels[l])
    requires 0 < x < |a.keys| && l < |a.next[x]| && x !in levels[l] && IsPredecessor(a, levels[l], p, a.keys[x])
    requires a.next[x][l] == a.next[p][l]
    ensures var b, levels2 := Store(a, p, l, x), levels[l := levels[l] + {x}];
            Shaped(b, levels2) && Linked(b, levels2)
  {
    var b, levels2 := Store(a, p, l, x), levels[l := levels[l] + {x}];
    assert Shaped(b, levels2);
    forall k, n | 0 <= k < MAX_HEIGHT && (n in levels2[k] || n == HEAD)
      ensures IsSuccessor(b, levels2[k], n, b.next[n][k])
    {
      if k != l {
        assert IsSuccessor(a, levels[k], n, a.next[n][k]);
        SameKeysSameSuccessor(a, b, levels[k], n, a.next[n][k]);
      } else {
        assert IsSuccessor(a, levels[l], p, a.next[p][l]);
        PublishedAtNew(a, levels[l], x, p, a.next[p][l]);
        if n != x && n != p {
          assert IsSuccessor(a, levels[l], n, a.next[n][l]);
          PublishedElsewhere(a, levels[l], x, p, n, a.next[n][l]);
        }
        SameKeysSameSuccessor(a, b, levels2[l], n, b.next[n][l]);
      }
    }
  }

  lemma {:induction false} PublishKeepsNested(a: Arena, levels: LevelSets, b: Arena, levels2: LevelSets, x: nat, l: nat)
    requires Shaped(a, levels) && Nested(a, levels) && Shaped(b, levels2) && b.maxHeight == a.maxHeight
    requires l < a.maxHeight
    requires levels2 == levels[l := levels[l] + {x}] && forall k :: 0 <= k < l ==> x in levels[k]
    ensures Nested(b, levels2)
  {
    forall k, m | 0 <= k <= m < MAX_HEIGHT ensures levels2[m] <= levels2[k] {
      assert levels[m] <= levels[k];
    }
  }

  lemma {:induction false} PublishKeepsGood(a: Arena, levels: LevelSets, x: nat, l: nat, p: nat)
    requires Good(a, levels) && l < a.maxHeight
    requires 0 < x < |a.keys| && l < |a.next[x]| && x !in levels[l] && IsPredecessor(a, levels[l], p, a.keys[x])
    requires a.next[x][l] == a.next[p][l] && (forall m :: m in levels[0] && m != x ==> a.keys[m] != a.keys[x])
    requires forall k :: 0 <= k < l ==> x in levels[k]
    ensures Good(Store(a, p, l, x), levels[l := levels[l] + {x}])
  {
    LevelIsDistinct(a, levels, l);
    PublishKeepsLinked(a, levels, x, l, p);
    PublishKeepsNested(a, levels, Store(a, p, l, x), levels[l := levels[l] + {x}], x, l);
    hide IsSuccessor;
    hide Linked;
    hide Nested;
    hide IsPredecessor;
  }

  lemma {:induction false} LevelIsDistinct(a: Arena, levels: LevelSets, l: nat)
    requires Shaped(a, levels) && DistinctKeys(a, levels[0]) && Nested(a, levels) && l < MAX_HEIGHT
    ensures DistinctKeys(a, levels[l])
  {
    assert levels[l] <= levels[0];
  }

  // ----- a search, one pointer load at a time, while stores happen

  /** FindGreaterOrEqual between two loads. */
  datatype Search = Search(key: int, x: nat, level: nat) | Found(key: int, node: int)

  /** A search stands on a node linked at its level, before the key. */
  ghost predicate SearchOk(a: Arena, levels: LevelSets, s: Search)
    requires Shaped(a, levels)
  {
    s.Search? ==>
      s.level < MAX_HEIGHT && s.x < |a.keys| && (s.x == HEAD || (s.x in levels[s.level] && a.keys[s.x] < s.key))
  }

  /** One iteration of the loop of FindGreaterOrEqual. */
  function SearchStep(a: Arena, levels: LevelSets, s: Search): Search
    requires Shaped(a, levels) && s.Search? && SearchOk(a, levels, s)
  {
    var next := a.next[s.x][s.level];
    if 0 <= next < |a.keys| && a.keys[next] < s.key then Search(s.key, next, s.level)
    else if s.level == 0 then Found(s.key, next)
    else Search(s.key, s.x, s.level - 1)
  }

  /** The node found is the first one with a key at or after the one sought, in the list as it is now. */
  ghost predicate IsFirstAtOrAfter(a: Arena, s: set<nat>, key: int, node: int)
    requires Nodes(a, s)
  {
    if node == NIL then forall m :: m in s ==> a.keys[m] < key
    else
      && 0 <= node && node as nat in s && a.keys[node] >= key
      && forall m :: m in s && a.keys[m] >= key ==> a.keys[node] <= a.keys[m]
  }

  lemma {:induction false} SearchStepOk(a: Arena, levels: LevelSets, s: Search)
    requires Good(a, levels) && s.Search? && SearchOk(a, levels, s)
    ensures var t := SearchStep(a, levels, s);
            && SearchOk(a, levels, t) && t.key == s.key
            && (t.Found? ==> IsFirstAtOrAfter(a, levels[0], s.key, t.node))
            && (t.Search? ==>
                  t.level < s.level
                  || (t.level == s.level && Beyond(a, levels[t.level], t.x) < Beyond(a, levels[s.level], s.x)))
  {
    var next := a.next[s.x][s.level];
    assert IsSuccessor(a, levels[s.level], s.x, next);
    if 0 <= next < |a.keys| && a.keys[next] < s.key {
      BeyondShrinks(a, levels[s.level], s.x, next);
    } else if s.level > 0 {
      assert levels[s.level] <= levels[s.level - 1];
    }
  }

  // ----- one writer and one reader

  /** Insert after its search: the new node x of the given height, and how far it is linked. */
  datatype Writer = Idle | Linking(x: nat, height: nat, prev: seq<nat>, i: nat, prepared: bool)

  /** The reader's search began when the nodes `seen` were in the list. */
  datatype System = System(a: Arena, levels: LevelSets, writer: Writer, search: Option<Search>, seen: set<nat>)

  datatype Event =
    | Raise(height: nat)
    | Begin(key: int, height: nat, prev: seq<nat>, pointers: seq<int>)
    | Prepare
    | Publish
    | StartSearch(key: int, level: nat)
    | Load

  /** prev as FindGreaterOrEqual fills it in, with head_ above the old maximum height. */
  ghost predicate ArePredecessors(a: Arena, levels: LevelSets, prev: seq<nat>, key: int, height: nat)
    requires Shaped(a, levels)
  {
    |prev| == height <= MAX_HEIGHT && forall l :: 0 <= l < height ==> IsPredecessor(a, levels[l], prev[l], key)
  }

  ghost predicate BeginStep(s: System, t: System, key: int, height: nat, prev: seq<nat>, pointers: seq<int>)
    requires Shaped(s.a, s.levels)
  {
    && s.writer.Idle? && 1 <= height <= s.a.maxHeight && |pointers| == height
    && (forall n :: n in s.levels[0] ==> s.a.keys[n] != key)
    && ArePredecessors(s.a, s.levels, prev, key, height)
    && t == s.(a := Allocate(s.a, key, pointers), writer := Linking(|s.a.keys|, height, prev, 0, false))
  }

  /** Each event is one store of the writer or one load of the reader. */
  ghost predicate Steps(s: System, t: System, event: Event)
    requires Shaped(s.a, s.levels)
  {
    match event
    case Raise(height) =>
      s.writer.Idle? && s.a.maxHeight < height <= MAX_HEIGHT && t == s.(a := s.a.(maxHeight := height))
    case Begin(key, height, prev, pointers) => BeginStep(s, t, key, height, prev, pointers)
    case Prepare =>
      && s.writer.Linking? && !s.writer.prepared && WriterShaped(s)
      && t == s.(a := Store(s.a, s.writer.x, s.writer.i, s.a.next[s.writer.prev[s.writer.i]][s.writer.i]),
          writer := s.writer.(prepared := true))
    case Publish =>
      && s.writer.Linking? && s.writer.prepared && WriterShaped(s)
      && t == s.(a := Store(s.a, s.writer.prev[s.writer.i], s.writer.i, s.writer.x),
                 levels := s.levels[s.writer.i := s.levels[s.writer.i] + {s.writer.x}],
                 writer := if s.writer.i + 1 == s.writer.height then Idle
                           else s.writer.(i := s.writer.i + 1, prepared := false))
    case StartSearch(key, level) =>
      level < s.a.maxHeight && t == s.(search := Some(Search(key, HEAD, level)), seen := s.levels[0])
    case Load =>
      && s.search.Some? && s.search.value.Search? && SearchOk(s.a, s.levels, s.search.value)
      && t == s.(search := Some(SearchStep(s.a, s.levels, s.search.value)))
  }

  predicate WriterShaped(s: System)
    requires Shaped(s.a, s.levels)
  {
    var w := s.writer;
    w.Linking? ==>
      && 0 < w.x < |s.a.keys| && |s.a.next[w.x]| == w.height == |w.prev| && w.i < w.height <= s.a.maxHeight
      && forall l :: 0 <= l < w.height ==> w.prev[l] < |s.a.keys| && l < |s.a.next[w.prev[l]]|
  }

  /** The new node is linked below level i and not from there on; its predecessors are still right. */
  ghost predicate WriterOk(s: System)
    requires Shaped(s.a, s.levels)
  {
    var w := s.writer;
    w.Linking? ==>
      && WriterShaped(s)
      && (forall l :: 0 <= l < w.i ==> w.x in s.levels[l])
      && (forall l :: w.i <= l < MAX_HEIGHT ==> w.x !in s.levels[l])
      && (forall l :: w.i <= l < w.height ==> IsPredecessor(s.a, s.levels[l], w.prev[l], s.a.keys[w.x]))
      && (forall n :: n in s.levels[0] && n != w.x ==> s.a.keys[n] != s.a.keys[w.x])
      && (w.prepared ==> s.a.next[w.x][w.i] == s.a.next[w.prev[w.i]][w.i])
  }

  /** What a search that overlaps inserts has found: no node that was there when it began is skipped. */
  ghost predicate ResultOk(s: System)
    requires Shaped(s.a, s.levels)
  {
    s.search.Some? && s.search.value.Found? ==>
      var node, key := s.search.value.node, s.search.value.key;
      && (node != NIL ==> 0 <= node && node as nat in s.levels[0] && s.a.keys[node] >= key)
      && (forall m :: m in s.seen && m < |s.a.keys| && s.a.keys[m] >= key ==>
                  node != NIL && s.a.keys[node] <= s.a.keys[m])
  }

  ghost predicate SystemOk(s: System) {
    && Good(s.a, s.levels) && WriterOk(s) && s.seen <= s.levels[0]
    && (s.search.Some? ==> SearchOk(s.a, s.levels, s.search.value)) && ResultOk(s)
  }

  lemma {:induction false} SearchSurvives(a: Arena, levels: LevelSets, b: Arena, levels2: LevelSets, s: Search)
    requires Shaped(a, levels) && Shaped(b, levels2) && SearchOk(a, levels, s)
    requires a.keys <= b.keys && forall l :: 0 <= l < MAX_HEIGHT ==> levels[l] <= levels2[l]
    ensures SearchOk(b, levels2, s)
  {
  }

  lemma {:induction false} ResultSurvives(s: System, t: System)
    requires Shaped(s.a, s.levels) && Shaped(t.a, t.levels) && ResultOk(s) && s.seen <= s.levels[0]
    requires s.a.keys <= t.a.keys && s.levels[0] <= t.levels[0] && t.search == s.search && t.seen == s.seen
    ensures ResultOk(t) && t.seen <= t.levels[0]
  {
  }

  lemma {:induction false} RaiseKeeps(s: System, t: System, height: nat)
    requires SystemOk(s) && Steps(s, t, Raise(height))
    ensures SystemOk(t)
  {
    RaiseKeepsGood(s.a, s.levels, height);
    hide IsSuccessor;
    hide Linked;
  }

  lemma {:induction false} BeginKeeps(s: System, t: System, key: int, height: nat, prev: seq<nat>, pointers: seq<int>)
    requires SystemOk(s) && Steps(s, t, Begin(key, height, prev, pointers))
    ensures SystemOk(t)
  {
    AllocateKeepsGood(s.a, s.levels, key, pointers);
    hide Linked;
    hide Nested;
    hide DistinctKeys;
    assert t.writer.x == |s.a.keys|;
    forall l | 0 <= l < MAX_HEIGHT ensures t.writer.x !in t.levels[l] {
      assert Nodes(s.a, s.levels[l]);
    }
    if s.search.Some? {
      SearchSurvives(s.a, s.levels, t.a, t.levels, s.search.value);
    }
    ResultSurvives(s, t);
  }

  lemma {:induction false} ReadersKeep(s: System, t: System)
    requires SystemOk(s) && Shaped(t.a, t.levels) && s.a.keys <= t.a.keys && t.search == s.search && t.seen == s.seen
    requires forall l :: 0 <= l < MAX_HEIGHT ==> s.levels[l] <= t.levels[l]
    ensures t.seen <= t.levels[0] && ResultOk(t) && (t.search.Some? ==> SearchOk(t.a, t.levels, t.search.value))
  {
    hide Linked;
    hide Nested;
    hide DistinctKeys;
    hide WriterOk;
    if s.search.Some? {
      SearchSurvives(s.a, s.levels, t.a, t.levels, s.search.value);
    }
    ResultSurvives(s, t);
  }

  lemma {:induction false} PrepareKeepsWriter(s: System, t: System)
    requires Shaped(s.a, s.levels) && Shaped(t.a, t.levels) && WriterOk(s) && Steps(s, t, Prepare)
    ensures WriterOk(t)
  {
    var w := s.writer;
    forall l | w.i <= l < w.height ensures IsPredecessor(t.a, t.levels[l], w.prev[l], t.a.keys[w.x]) {
      assert IsPredecessor(s.a, s.levels[l], w.prev[l], s.a.keys[w.x]);
    }
    assert w.prev[w.i] != w.x;
  }

  lemma {:induction false} PrepareKeeps(s: System, t: System)
    requires SystemOk(s) && Steps(s, t, Prepare)
    ensures SystemOk(t)
  {
    var w := s.writer;
    PrepareKeepsGood(s.a, s.levels, w.x, w.i, s.a.next[w.prev[w.i]][w.i]);
    PrepareKeepsWriter(s, t);
    ReadersKeep(s, t);
    hide Good;
    hide WriterOk;
    hide SearchOk;
    hide ResultOk;
  }

  lemma {:induction false} PublishKeepsWriter(s: System, t: System)
    requires Shaped(s.a, s.levels) && Shaped(t.a, t.levels) && WriterOk(s) && Steps(s, t, Publish)
    ensures WriterOk(t)
  {
    var w := s.writer;
    forall l | w.i < l < w.height ensures IsPredecessor(t.a, t.levels[l], w.prev[l], t.a.keys[w.x]) {
      assert IsPredecessor(s.a, s.levels[l], w.prev[l], s.a.keys[w.x]);
    }
  }

  lemma {:induction false} PublishKeeps(s: System, t: System)
    requires SystemOk(s) && Steps(s, t, Publish)
    ensures SystemOk(t)
  {
    var w := s.writer;
    PublishKeepsGood(s.a, s.levels, w.x, w.i, w.prev[w.i]);
    PublishKeepsWriter(s, t);
    ReadersKeep(s, t);
    hide Good;
    hide WriterOk;
    hide SearchOk;
    hide ResultOk;
  }

  lemma {:induction false} StartSearchKeeps(s: System, t: System, key: int, level: nat)
    requires SystemOk(s) && Steps(s, t, StartSearch(key, level))
    ensures SystemOk(t)
  {
    hide Linked;
    hide Nested;
    hide DistinctKeys;
    hide IsPredecessor;
  }

  lemma {:induction false} LoadKeeps(s: System, t: System)
    requires SystemOk(s) && Steps(s, t, Load)
    ensures SystemOk(t)
  {
    SearchStepOk(s.a, s.levels, s.search.value);
    hide Linked;
    hide Nested;
    hide DistinctKeys;
    hide IsPredecessor;
    hide SearchStep;
    hide SearchOk;
    var r := t.search.value;
    if r.Found? {
      FoundIsFirst(t.a, t.levels, r.key, r.node, t.seen);
    }
  }

  lemma {:induction false} FoundIsFirst(a: Arena, levels: LevelSets, key: int, node: int, seen: set<nat>)
    requires Shaped(a, levels) && IsFirstAtOrAfter(a, levels[0], key, node) && seen <= levels[0]
    ensures node != NIL ==> 0 <= node && node as nat in levels[0] && a.keys[node] >= key
    ensures forall m :: m in seen && m < |a.keys| && a.keys[m] >= key ==> node != NIL && a.keys[node] <= a.keys[m]
  {
  }

  /** After every single store of Insert and every load of a search, the list is sound and the search is on track. */
  lemma {:induction false} StepsKeep(s: System, t: System, event: Event)
    requires SystemOk(s) && Steps(s, t, event)
    ensures SystemOk(t)
  {
    hide SystemOk;
    match event
    case Raise(height) => RaiseKeeps(s, t, height);
    case Begin(key, height, prev, pointers) => BeginKeeps(s, t, key, height, prev, pointers);
    case Prepare => PrepareKeeps(s, t);
    case Publish => PublishKeeps(s, t);
    case StartSearch(key, level) => StartSearchKeeps(s, t, key, level);
    case Load => LoadKeeps(s, t);
  }

  ghost predicate InitSystem(s: System) {
    && s.a.keys == [0] && s.a.next == [seq(MAX_HEIGHT, _ => NIL)] && s.a.maxHeight == 1
    && s.levels == seq(MAX_HEIGHT, _ => {}) && s.writer.Idle? && s.search.None? && s.seen == {}
  }

  ghost predicate IsRun(states: seq<System>, events: seq<Event>) {
    && |states| == |events| + 1 && InitSystem(states[0])
    && forall i :: 0 <= i < |events| ==> Shaped(states[i].a, states[i].levels) && Steps(states[i], states[i + 1],
        events[i])
  }

  /** Over every run of inserts and searches, each level is a sorted part of the one below; a search skips no node. */
  lemma {:induction false} RunOk(states: seq<System>, events: seq<Event>)
    requires IsRun(states, events)
    ensures SystemOk(states[|events|])
    decreases |events|
  {
    if events != [] {
      hide SystemOk;
      hide Steps;
      var n := |events| - 1;
      RunOk(states[..n + 1], events[..n]);
      StepsKeep(states[n], states[n + 1], events[n]);
    }
  }

  /**
   In every reachable state, following a level's pointers from the head visits its nodes in ascending order, and
   each level's nodes are among those of the level below.
   */
  lemma {:induction false} LevelsAreSortedSublists(states: seq<System>, events: seq<Event>, l: nat)
    requires IsRun(states, events) && l < MAX_HEIGHT
    ensures var s := states[|events|];
            && Good(s.a, s.levels)
            && Lists(s.a, s.levels[l], HEAD, Walk(s.a, s.levels, l, HEAD))
            && (l > 0 ==> s.levels[l] <= s.levels[l - 1])
  {
    RunOk(states, events);
    var s := states[|events|];
    WalkIsSorted(s.a, s.levels, l, HEAD);
    hide Lists;
    hide Linked;
    hide IsRun;
  }

  /**
   A search that overlaps inserts ends at a node at or after its key, and skips no such node that was in the list
   when it began; until then its next load can always be made.
   */
  lemma {:induction false} SearchSkipsNothing(states: seq<System>, events: seq<Event>)
    requires IsRun(states, events) && states[|events|].search.Some?
    ensures var s := states[|events|];
            if s.search.value.Found? then
              var node, key := s.search.value.node, s.search.value.key;
              && Shaped(s.a, s.levels)
              && (node != NIL ==> 0 <= node && node as nat in s.levels[0] && s.a.keys[node] >= key)
              && (forall m :: m in s.seen ==> m in s.levels[0])
              && (forall m :: m in s.seen && s.a.keys[m] >= key ==> node != NIL && s.a.keys[node] <= s.a.keys[m])
            else
              Shaped(s.a, s.levels) && exists t :: Steps(s, t, Load)
  {
    RunOk(states, events);
    var s := states[|events|];
    hide IsRun;
    hide Linked;
    hide Nested;
    hide DistinctKeys;
    hide SearchOk;
    hide WriterOk;
    if s.search.value.Search? {
      var t := s.(search := Some(SearchStep(s.a, s.levels, s.search.value)));
      assert Steps(s, t, Load);
    }
  }

  // ----- the class, between inserts

  /** p is the last node before the key, or the head. */
  predicate IsLastBefore(a: Arena, s: set<nat>, p: nat, key: int)
    requires Nodes(a, s)
  {
    && (p == HEAD || (p in s && a.keys[p] < key)) && p < |a.keys|
    && forall m :: m in s && After(a, p, m) ==> key <= a.keys[m]
  }

  function KeySet(a: Arena, s: set<nat>): set<int>
    requires Nodes(a, s)
  {
    set n | n in s :: a.keys[n]
  }

  class SkipList {
    var a: Arena
    ghost var levels: LevelSets

    constructor ()
      ensures Valid() && Keys() == {}
    {
      a := Arena([0], [seq(MAX_HEIGHT, _ => NIL)], 1);
      levels := seq(MAX_HEIGHT, _ => {});
    }

    ghost predicate Valid()
      reads this
    {
      Good(a, levels)
    }

    ghost function Keys(): set<int>
      requires Valid()
      reads this
    {
      KeySet(a, levels[0])
    }

    /** SkipList::FindGreaterOrEqual, with prev. */
    method FindGreaterOrEqual(key: int) returns (node: int, prev: seq<nat>)
      requires Valid()
      ensures IsFirstAtOrAfter(a, levels[0], key, node)
      ensures |prev| == a.maxHeight && forall l :: 0 <= l < a.maxHeight ==> IsLastBefore(a, levels[l], prev[l], key)
    {
      hide Linked;
      hide Nested;
      hide DistinctKeys;
      hide IsLastBefore;
      hide IsFirstAtOrAfter;
      var x: nat, level := HEAD, a.maxHeight - 1;
      prev := seq(a.maxHeight, _ => HEAD);
      while true
        invariant 0 <= level < a.maxHeight == |prev|
        invariant SearchOk(a, levels, Search(key, x, level))
        invariant forall l :: level < l < a.maxHeight ==> IsLastBefore(a, levels[l], prev[l], key)
        decreases level, Beyond(a, levels[level], x)
      {
        SearchStepOk(a, levels, Search(key, x, level));
        var next := a.next[x][level];
        SuccessorDecides(a, levels, x, level, key);
        if next != NIL && a.keys[next] < key {
          x := next;
        } else {
          prev := prev[level := x];
          if level == 0 {
            return next, prev;
          }
          level := level - 1;
        }
      }
    }

    /** SkipList::FindLessThan. */
    method FindLessThan(key: int) returns (x: nat)
      requires Valid()
      ensures IsLastBefore(a, levels[0], x, key)
    {
      x := HEAD;
      var level := a.maxHeight - 1;
      while true
        invariant 0 <= level < a.maxHeight
        invariant SearchOk(a, levels, Search(key, x, level))
        decreases level, Beyond(a, levels[level], x)
      {
        SearchStepOk(a, levels, Search(key, x, level));
        var next := a.next[x][level];
        SuccessorDecides(a, levels, x, level, key);
        if next == NIL || a.keys[next] >= key {
          if level == 0 {
            return;
          }
          level := level - 1;
        } else {
          x := next;
        }
      }
    }

    /** SkipList::FindLast. */
    method FindLast() returns (x: nat)
      requires Valid()
      ensures x == HEAD ==> levels[0] == {}
      ensures x != HEAD ==> x in levels[0] && forall m :: m in levels[0] ==> a.keys[m] <= a.keys[x]
    {
      x := HEAD;
      var level := a.maxHeight - 1;
      while true
        invariant 0 <= level < a.maxHeight
        invariant x == HEAD || x in levels[level]
        decreases level, Beyond(a, levels[level], x)
      {
        var next := a.next[x][level];
        assert IsSuccessor(a, levels[level], x, next);
        if next == NIL {
          if level == 0 {
            return;
          }
          assert levels[level] <= levels[level - 1];
          level := level - 1;
        } else {
          BeyondShrinks(a, levels[level], x, next);
          x := next;
        }
      }
    }

    /** SkipList::Contains. */
    method Contains(key: int) returns (found: bool)
      requires Valid()
      ensures found <==> key in Keys()
    {
      var x, _ := FindGreaterOrEqual(key);
      found := x != NIL && a.keys[x] == key;
    }

    /** The stores of Insert at one level. */
    method LinkAt(x: nat, i: nat, p: nat)
      requires Valid() && i < a.maxHeight && 0 < x < |a.keys| && i < |a.next[x]|
      requires (forall l :: i <= l < MAX_HEIGHT ==> x !in levels[l])
      requires IsPredecessor(a, levels[i], p, a.keys[x])
      requires (forall m :: m in levels[0] && m != x ==> a.keys[m] != a.keys[x])
      requires forall l :: 0 <= l < i ==> x in levels[l]
      modifies this
      ensures Valid() && levels == old(levels)[i := old(levels[i]) + {x}] && a.keys == old(a.keys)
      ensures a.maxHeight == old(a.maxHeight)
      ensures |a.next[x]| == old(|a.next[x]|)
    {
      var y := a.next[p][i];
      PrepareKeepsGood(a, levels, x, i, y);
      a := Store(a, x, i, y);
      assert a.next[x][i] == a.next[p][i];
      PublishKeepsGood(a, levels, x, i, p);
      a := Store(a, p, i, x);
      levels := levels[i := levels[i] + {x}];
    }

    /** The search of Insert, and the new maximum height. */
    method FindPrevious(key: int, height: nat) returns (prev: seq<nat>)
      requires Valid() && key !in Keys() && 1 <= height <= MAX_HEIGHT
      modifies this`a
      ensures Valid() && a.keys == old(a.keys) && a.next == old(a.next) && height <= a.maxHeight <= |prev|
      ensures forall l :: 0 <= l < height ==> IsPredecessor(a, levels[l], prev[l], key)
    {
      var node;
      node, prev := FindGreaterOrEqual(key);
      BeforeIsPredecessor(a, levels, prev, key);
      if height > a.maxHeight {
        assert forall l :: a.maxHeight <= l < height ==> IsPredecessor(a, levels[l], HEAD, key);
        prev := prev + seq(height - a.maxHeight, _ => HEAD);
        RaiseKeepsGood(a, levels, height);
        hide Good;
        hide IsPredecessor;
        a := a.(maxHeight := height);
        SamePredecessors(old(a), a, levels, prev, key, height);
      }
    }

    /** The loop of Insert. */
    method LinkAll(x: nat, height: nat, prev: seq<nat>)
      requires Valid() && 1 <= height <= a.maxHeight && height <= |prev|
      requires 0 < x < |a.keys| && |a.next[x]| == height && forall l :: 0 <= l < MAX_HEIGHT ==> x !in levels[l]
      requires forall l :: 0 <= l < height ==> IsPredecessor(a, levels[l], prev[l], a.keys[x])
      requires forall m :: m in levels[0] ==> a.keys[m] != a.keys[x]
      modifies this
      ensures Valid() && a.keys == old(a.keys) && levels[0] == old(levels[0]) + {x}
    {
      hide Linked;
      hide Nested;
      hide DistinctKeys;
      hide IsPredecessor;
      ghost var levels0 := levels;
      for i := 0 to height
        invariant Valid() && a.keys == old(a.keys) && |a.next[x]| == height <= a.maxHeight
        invariant forall l :: 0 <= l < i ==> levels[l] == levels0[l] + {x}
        invariant forall l :: i <= l < MAX_HEIGHT ==> levels[l] == levels0[l]
      {
        SamePredecessor(old(a), a, levels0[i], prev[i], a.keys[x]);
        LinkAt(x, i, prev[i]);
      }
    }

    /** SkipList::Insert; `height` is what RandomHeight draws, `pointers` what the new node's memory holds. */
    method Insert(key: int, height: nat, pointers: seq<int>)
      requires Valid() && key !in Keys() && 1 <= height <= MAX_HEIGHT == |pointers|
      modifies this
      ensures Valid() && Keys() == old(Keys()) + {key}
    {
      hide Linked;
      hide Nested;
      hide DistinctKeys;
      hide IsPredecessor;
      hide KeySet;
      NoKey(a, levels, key);
      var prev := FindPrevious(key, height);
      var x := |a.keys|;
      assert forall l :: 0 <= l < MAX_HEIGHT ==> Nodes(a, levels[l]);
      AllocateKeepsGood(a, levels, key, pointers[..height]);
      ghost var before := a;
      a := Allocate(a, key, pointers[..height]);
      SamePredecessors(before, a, levels, prev, key, height);
      LinkAll(x, height, prev);
      OneMoreKey(old(a), a, old(levels[0]), key);
    }
  }

  lemma {:induction false} OneMoreKey(a: Arena, b: Arena, s: set<nat>, key: int)
    requires Nodes(a, s) && |a.keys| > 0 && b.keys == a.keys + [key]
    ensures Nodes(b, s + {|a.keys|}) && KeySet(b, s + {|a.keys|}) == KeySet(a, s) + {key}
  {
    var x := |a.keys|;
    assert b.keys[x] == key && x in s + {x};
    forall k | k in KeySet(a, s) ensures k in KeySet(b, s + {x}) {
      var n :| n in s && a.keys[n] == k;
      assert b.keys[n] == k && n in s + {x};
    }
  }

  lemma {:induction false} SamePredecessor(a: Arena, b: Arena, s: set<nat>, p: nat, key: int)
    requires Nodes(a, s) && a.keys <= b.keys && IsPredecessor(a, s, p, key)
    ensures Nodes(b, s) && IsPredecessor(b, s, p, key)
  {
  }

  lemma {:induction false} SamePredecessors(a: Arena, b: Arena, levels: LevelSets, prev: seq<nat>, key: int,
      height: nat)
    requires Shaped(a, levels) && Shaped(b, levels) && a.keys <= b.keys && height <= MAX_HEIGHT && height <= |prev|
    requires forall l :: 0 <= l < height ==> IsPredecessor(a, levels[l], prev[l], key)
    ensures forall l :: 0 <= l < height ==> IsPredecessor(b, levels[l], prev[l], key)
  {
    hide IsPredecessor;
    forall l | 0 <= l < height ensures IsPredecessor(b, levels[l], prev[l], key) {
      SamePredecessor(a, b, levels[l], prev[l], key);
    }
  }

  lemma {:induction false} BeforeIsPredecessor(a: Arena, levels: LevelSets, prev: seq<nat>, key: int)
    requires Good(a, levels) && key !in KeySet(a, levels[0])
    requires |prev| == a.maxHeight && forall l :: 0 <= l < a.maxHeight ==> IsLastBefore(a, levels[l], prev[l], key)
    ensures forall l :: 0 <= l < a.maxHeight ==> IsPredecessor(a, levels[l], prev[l], key)
  {
    NoKey(a, levels, key);
    hide Linked;
    hide Nested;
    hide DistinctKeys;
  }

  lemma {:induction false} NoKey(a: Arena, levels: LevelSets, key: int)
    requires Good(a, levels) && key !in KeySet(a, levels[0])
    ensures forall l, m :: 0 <= l < MAX_HEIGHT && m in levels[l] ==> a.keys[m] != key
  {
    forall l, m | 0 <= l < MAX_HEIGHT && m in levels[l] ensures a.keys[m] != key {
      assert levels[l] <= levels[0];
      assert a.keys[m] in KeySet(a, levels[0]);
    }
  }

  /** The pointer loaded tells whether x is the last node before the key at its level. */
  lemma {:induction false} SuccessorDecides(a: Arena, levels: LevelSets, x: nat, level: nat, key: int)
    requires Good(a, levels) && level < MAX_HEIGHT && SearchOk(a, levels, Search(key, x, level))
    ensures var next := a.next[x][level];
            && (next == NIL || (0 <= next < |a.keys| && next in levels[level]))
            && (next == NIL || a.keys[next] >= key ==> IsLastBefore(a, levels[level], x, key))
  {
    assert IsSuccessor(a, levels[level], x, a.next[x][level]);
  }

  class Iterator {
    const list: SkipList
    var node: int

    constructor (list: SkipList)
      ensures this.list == list && node == NIL
    {
      this.list, node := list, NIL;
    }

    /** The iterator stands on a node of the list, or nowhere. */
    ghost predicate Valid()
      reads this, list
    {
      list.Valid() && (node != NIL ==> 0 <= node && node as nat in list.levels[0])
    }

    method Seek(target: int)
      requires list.Valid()
      modifies this
      ensures Valid() && IsFirstAtOrAfter(list.a, list.levels[0], target, node)
    {
      var x, _ := list.FindGreaterOrEqual(target);
      node := x;
    }

    method SeekToFirst()
      requires list.Valid()
      modifies this
      ensures Valid() && IsSuccessor(list.a, list.levels[0], HEAD, node)
    {
      node := list.a.next[HEAD][0];
      assert IsSuccessor(list.a, list.levels[0], HEAD, node);
    }

    method SeekToLast()
      requires list.Valid()
      modifies this
      ensures Valid() && (node == NIL <==> list.levels[0] == {})
      ensures node != NIL ==> forall m :: m in list.levels[0] ==> list.a.keys[m] <= list.a.keys[node]
    {
      var x := list.FindLast();
      node := if x == HEAD then NIL else x;
    }

    method Next()
      requires Valid() && node != NIL
      modifies this
      ensures Valid() && IsSuccessor(list.a, list.levels[0], old(node), node)
    {
      assert IsSuccessor(list.a, list.levels[0], node, list.a.next[node][0]);
      node := list.a.next[node][0];
    }

    /** Prev searches for the last node before the current key. */
    method Prev()
      requires Valid() && node != NIL
      modifies this
      ensures Valid()
      ensures node != NIL ==> IsSuccessor(list.a, list.levels[0], node, old(node))
      ensures node == NIL ==> IsSuccessor(list.a, list.levels[0], HEAD, old(node))
    {
      var x := list.FindLessThan(list.a.keys[node]);
      node := if x == HEAD then NIL else x;
    }
  }
}
