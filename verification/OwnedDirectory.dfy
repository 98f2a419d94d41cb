/** Deleting an owned directory with an explicit stack: links are unlinked and never followed,
    a directory goes only when it is empty, and nothing outside the target changes. */
module OwnedDirectory {
  import opened Wrappers

  type Path = seq<string>

  /** A link names its target, which may be anywhere. */
  datatype Node = Dir | File | Link(to: Path)

  datatype Result = Removed | OutsideOwner | BoundExceeded | TimedOut | IoFailed

  const MAX_VISITS: nat := 2_000_000
  const MAX_STACK: nat := 1_000_000

  function Parent(p: Path): Path
    requires p != []
  {
    p[..|p| - 1]
  }

  /** `p` is `top` or lies below it. */
  predicate Under(top: Path, p: Path) {
    top <= p
  }

  /** Everything but the root has its parent directory. */
  ghost predicate Tree(fs: map<Path, Node>) {
    forall p <- fs :: p != [] ==> Parent(p) in fs && fs[Parent(p)].Dir?
  }

  ghost function Subtree(fs: map<Path, Node>, top: Path): set<Path> {
    set p | p in fs && Under(top, p)
  }

  function Directories(fs: map<Path, Node>, paths: set<Path>): set<Path> {
    set p | p in paths && p in fs && fs[p].Dir?
  }

  /** How often the loop looks at each of `paths`: directories twice, everything else once. */
  function Visits(fs: map<Path, Node>, paths: set<Path>): nat {
    |paths| + |Directories(fs, paths)|
  }

  /** In a tree, whatever lies below a path that exists lies below a directory. */
  lemma {:induction false} BelowIsUnderDirectory(fs: map<Path, Node>, top: Path, p: Path)
    requires Tree(fs) && p in fs && Under(top, p) && p != top
    ensures top in fs && fs[top].Dir?
    decreases |p|
  {
    if Parent(p) != top {
      BelowIsUnderDirectory(fs, top, Parent(p));
    }
  }

  /** One entry of the work stack. */
  datatype Item = Item(path: Path, expanded: bool)

  function Opened(entries: seq<Path>): seq<Item> {
    seq(|entries|, i requires 0 <= i < |entries| => Item(entries[i], false))
  }

  ghost predicate Distinct(stack: seq<Item>) {
    forall i, j :: 0 <= i < j < |stack| ==> stack[i].path != stack[j].path
  }

  ghost predicate Above(stack: seq<Item>, k: nat, p: Path) {
    exists j :: k < j < |stack| && stack[j].path == p
  }

  /** What is left of a directory on the stack lies above it. */
  ghost predicate ChildrenAbove(now: map<Path, Node>, stack: seq<Item>, k: nat)
    requires k < |stack|
  {
    forall p <- now :: p != [] && Parent(p) == stack[k].path ==> Above(stack, k, p)
  }

  /** An entry lies above its expanded parent. */
  ghost predicate Hangs(stack: seq<Item>, j: nat)
    requires j < |stack|
  {
    stack[j].path != [] && exists k :: 0 <= k < j && stack[k] == Item(Parent(stack[j].path), true)
  }

  /** Of the original tree only paths under the target are gone. */
  ghost predicate Partial(before: map<Path, Node>, now: map<Path, Node>, target: Path) {
    && Tree(now)
    && (forall p <- now :: p in before && now[p] == before[p])
    && (forall p <- before :: p !in now ==> Under(target, p))
  }

  /** The stack holds existing paths under the target, once each, from the target upwards. */
  ghost predicate Listed(now: map<Path, Node>, target: Path, stack: seq<Item>) {
    && Distinct(stack)
    && (forall i :: 0 <= i < |stack| ==> stack[i].path in now && Under(target, stack[i].path))
    && (forall i :: 0 <= i < |stack| && stack[i].expanded ==> now[stack[i].path].Dir?)
    && (target in now ==> stack != [] && stack[0].path == target)
  }

  ghost predicate Linked(now: map<Path, Node>, stack: seq<Item>) {
    && (forall k :: 0 <= k < |stack| && stack[k].expanded ==> ChildrenAbove(now, stack, k))
    && (forall j :: 0 < j < |stack| ==> Hangs(stack, j))
  }

  /** What the loop keeps. */
  ghost predicate Work(before: map<Path, Node>, now: map<Path, Node>, target: Path, stack: seq<Item>) {
    Partial(before, now, target) && Listed(now, target, stack) && Linked(now, stack)
  }

  lemma ChildrenStay(now: map<Path, Node>, stack: seq<Item>, k: nat)
    requires k < |stack| - 1 && ChildrenAbove(now, stack, k)
    ensures ChildrenAbove(now - {stack[|stack| - 1].path}, stack[..|stack| - 1], k)
  {
    var rest := stack[..|stack| - 1];
    forall p | p in now && p != stack[|stack| - 1].path && p != [] && Parent(p) == rest[k].path
      ensures Above(rest, k, p)
    {
      var j :| k < j < |stack| && stack[j].path == p;
      assert rest[j] == stack[j];
    }
  }

  lemma HangsStay(stack: seq<Item>, j: nat)
    requires j < |stack| - 1 && Hangs(stack, j)
    ensures Hangs(stack[..|stack| - 1], j)
  {
    var k :| 0 <= k < j && stack[k] == Item(Parent(stack[j].path), true);
    assert stack[..|stack| - 1][k] == stack[k];
  }

  lemma LinkedAfterUnlink(now: map<Path, Node>, stack: seq<Item>)
    requires stack != [] && Linked(now, stack)
    ensures Linked(now - {stack[|stack| - 1].path}, stack[..|stack| - 1])
  {
    var rest := stack[..|stack| - 1];
    forall k | 0 <= k < |rest| && rest[k].expanded
      ensures ChildrenAbove(now - {stack[|stack| - 1].path}, rest, k)
    {
      ChildrenStay(now, stack, k);
    }
    forall j | 0 < j < |rest|
      ensures Hangs(rest, j)
    {
      HangsStay(stack, j);
    }
  }

  lemma AfterUnlink(before: map<Path, Node>, now: map<Path, Node>, target: Path, stack: seq<Item>)
    requires Work(before, now, target, stack) && stack != []
    requires forall q <- now :: q != [] ==> Parent(q) != stack[|stack| - 1].path
    ensures Work(before, now - {stack[|stack| - 1].path}, target, stack[..|stack| - 1])
  {
    var p, rest := stack[|stack| - 1].path, stack[..|stack| - 1];
    assert Partial(before, now - {p}, target);
    ListedAfterUnlink(now, target, stack);
    LinkedAfterUnlink(now, stack);
  }

  lemma ListedAfterUnlink(now: map<Path, Node>, target: Path, stack: seq<Item>)
    requires Listed(now, target, stack) && stack != []
    ensures Listed(now - {stack[|stack| - 1].path}, target, stack[..|stack| - 1])
  {
    var rest := stack[..|stack| - 1];
    forall i | 0 <= i < |rest| ensures rest[i] == stack[i] && rest[i].path != stack[|stack| - 1].path {
    }
  }

  lemma LinkedAfterExpand(now: map<Path, Node>, stack: seq<Item>, p: Path, entries: seq<Path>)
    requires Linked(now, stack + [Item(p, false)])
    requires forall q :: q in entries <==> q in now && q != [] && Parent(q) == p
    ensures Linked(now, stack + [Item(p, true)] + Opened(entries))
  {
    var last, next := stack + [Item(p, false)], stack + [Item(p, true)] + Opened(entries);
    forall k | 0 <= k < |next| && next[k].expanded
      ensures ChildrenAbove(now, next, k)
    {
      assert k <= |stack|;
      forall q | q in now && q != [] && Parent(q) == next[k].path
        ensures Above(next, k, q)
      {
        if k == |stack| {
          var e :| 0 <= e < |entries| && entries[e] == q;
          assert next[|stack| + 1 + e].path == q;
        } else {
          assert ChildrenAbove(now, last, k);
          var j :| k < j < |last| && last[j].path == q;
          assert next[j].path == q;
        }
      }
    }
    forall j | 0 < j < |next|
      ensures Hangs(next, j)
    {
      if j <= |stack| {
        assert Hangs(last, j) && next[j].path == last[j].path;
        var k :| 0 <= k < j && last[k] == Item(Parent(last[j].path), true);
        assert next[k] == last[k];
      } else {
        assert next[j].path in entries && next[|stack|] == Item(p, true);
      }
    }
  }

  /** A directory that is not expanded has no child on the stack. */
  lemma UnexpandedIsAlone(now: map<Path, Node>, target: Path, stack: seq<Item>, p: Path, q: Path, j: nat)
    requires Listed(now, target, stack + [Item(p, false)]) && Linked(now, stack + [Item(p, false)])
    requires target in now && q != [] && Parent(q) == p && j <= |stack|
    ensures (stack + [Item(p, false)])[j].path != q
  {
    var last := stack + [Item(p, false)];
    assert last[|stack|] == Item(p, false);
    assert Under(target, p) && last[0].path == target && |target| < |q|;
    if j > 0 {
      assert Hangs(last, j);
      var k :| 0 <= k < j && last[k] == Item(Parent(last[j].path), true);
      assert last[k].path != p || k == |stack|;
    }
  }

  lemma ListedAfterExpand(now: map<Path, Node>, target: Path, stack: seq<Item>, p: Path, entries: seq<Path>)
    requires Listed(now, target, stack + [Item(p, false)]) && Linked(now, stack + [Item(p, false)])
    requires target in now && p in now && now[p].Dir?
    requires forall q :: q in entries <==> q in now && q != [] && Parent(q) == p
    requires forall i, j :: 0 <= i < j < |entries| ==> entries[i] != entries[j]
    ensures Listed(now, target, stack + [Item(p, true)] + Opened(entries))
  {
    var last, next := stack + [Item(p, false)], stack + [Item(p, true)] + Opened(entries);
    assert forall i :: 0 <= i <= |stack| ==> next[i].path == last[i].path;
    assert last[|stack|] == Item(p, false);
    forall i, j | 0 <= i < j < |next|
      ensures next[i].path != next[j].path
    {
      if j > |stack| {
        var q := entries[j - |stack| - 1];
        assert q in entries;
        if i <= |stack| {
          UnexpandedIsAlone(now, target, stack, p, q, i);
        }
      }
    }
    forall i | 0 <= i < |next|
      ensures next[i].path in now && Under(target, next[i].path)
    {
      if i > |stack| {
        assert next[i].path in entries && Under(target, p);
      }
    }
  }

  /** The directories the stack has already opened. */
  ghost function Expanded(stack: seq<Item>): set<Path> {
    set i | 0 <= i < |stack| && stack[i].expanded :: stack[i].path
  }

  ghost function Gone(before: map<Path, Node>, now: map<Path, Node>): set<Path> {
    before.Keys - now.Keys
  }

  /** Loop turns so far: one for each open directory, all of them for each path that is gone. */
  ghost function Turns(before: map<Path, Node>, now: map<Path, Node>, stack: seq<Item>): nat {
    Visits(before, Gone(before, now)) + |Expanded(stack)|
  }

  lemma TurnsAreBounded(before: map<Path, Node>, now: map<Path, Node>, target: Path, stack: seq<Item>)
    requires Work(before, now, target, stack)
    ensures Turns(before, now, stack) <= Visits(before, Subtree(before, target))
  {
    var gone, open, all := Gone(before, now), Expanded(stack), Subtree(before, target);
    SubsetSize(gone + open, all);
    SubsetSize(Directories(before, gone), Directories(before, all));
    assert gone !! open;
    assert |gone + open| == |gone| + |open|;
  }

  lemma StackIsBounded(now: map<Path, Node>, target: Path, stack: seq<Item>, before: map<Path, Node>)
    requires Listed(now, target, stack) && Partial(before, now, target)
    ensures |stack| <= |Subtree(before, target)|
  {
    PathsAreDistinct(stack);
    SubsetSize(Paths(stack), Subtree(before, target));
  }

  ghost function Paths(stack: seq<Item>): set<Path> {
    set i | 0 <= i < |stack| :: stack[i].path
  }

  lemma {:induction false} PathsAreDistinct(stack: seq<Item>)
    requires Distinct(stack)
    ensures |Paths(stack)| == |stack|
  {
    if stack != [] {
      var rest := stack[..|stack| - 1];
      PathsAreDistinct(rest);
      assert Paths(stack) == Paths(rest) + {stack[|stack| - 1].path};
    }
  }

  lemma ExpandedBelowTop(stack: seq<Item>)
    requires Distinct(stack) && stack != []
    ensures var top, below := stack[|stack| - 1], Expanded(stack[..|stack| - 1]);
            Expanded(stack) == (if top.expanded then below + {top.path} else below) && top.path !in below
  {
    var rest := stack[..|stack| - 1];
    forall q | q in Expanded(rest) ensures q in Expanded(stack) && q != stack[|stack| - 1].path {
      var i :| 0 <= i < |rest| && rest[i].expanded && rest[i].path == q;
      assert stack[i] == rest[i];
    }
  }

  lemma VisitsGrow(before: map<Path, Node>, gone: set<Path>, p: Path)
    requires p in before && p !in gone
    ensures Visits(before, gone + {p}) == Visits(before, gone) + if before[p].Dir? then 2 else 1
  {
    var now := Directories(before, gone + {p});
    assert now == Directories(before, gone) + (if before[p].Dir? then {p} else {});
  }

  /** Unlinking the top of the stack is one more turn. */
  lemma TurnOfUnlink(before: map<Path, Node>, now: map<Path, Node>, target: Path, stack: seq<Item>)
    requires Work(before, now, target, stack) && stack != []
    requires var top := stack[|stack| - 1]; top.expanded == now[top.path].Dir?
    ensures Turns(before, now - {stack[|stack| - 1].path}, stack[..|stack| - 1]) == Turns(before, now, stack) + 1
  {
    var top := stack[|stack| - 1];
    assert Gone(before, now - {top.path}) == Gone(before, now) + {top.path};
    ExpandedBelowTop(stack);
    VisitsGrow(before, Gone(before, now), top.path);
  }

  /** So is opening it. */
  lemma TurnOfExpand(before: map<Path, Node>, now: map<Path, Node>, target: Path, stack: seq<Item>, p: Path, entries: seq<Path>)
    requires Work(before, now, target, stack + [Item(p, false)])
    ensures Turns(before, now, stack + [Item(p, true)] + Opened(entries)) == Turns(before, now, stack + [Item(p, false)]) + 1
  {
    var last, next := stack + [Item(p, false)], stack + [Item(p, true)] + Opened(entries);
    assert Expanded(next) == Expanded(last) + {p} by {
      assert next[|stack|] == Item(p, true);
      forall q | q in Expanded(last) ensures q in Expanded(next) {
        var i :| 0 <= i < |last| && last[i].expanded && last[i].path == q;
        assert next[i] == last[i];
      }
      forall q | q in Expanded(next) ensures q in Expanded(last) + {p} {
        var i :| 0 <= i < |next| && next[i].expanded && next[i].path == q;
        assert i <= |stack|;
        if i < |stack| { assert last[i] == next[i]; }
      }
    }
    assert p !in Expanded(last) by {
      assert last[|stack|] == Item(p, false);
    }
  }

  /** Opening a directory keeps the loop invariant, one turn further, within the bounds. */
  lemma OpenTurn(before: map<Path, Node>, now: map<Path, Node>, target: Path, stack: seq<Item>, p: Path, entries: seq<Path>)
    requires Work(before, now, target, stack + [Item(p, false)]) && p in now && now[p].Dir?
    requires forall q :: q in entries <==> q in now && q != [] && Parent(q) == p
    requires forall i, j :: 0 <= i < j < |entries| ==> entries[i] != entries[j]
    ensures var next := stack + [Item(p, true)] + Opened(entries);
      && Work(before, now, target, next)
      && Turns(before, now, next) == Turns(before, now, stack + [Item(p, false)]) + 1
      && Turns(before, now, next) <= Visits(before, Subtree(before, target))
      && |next| <= |Subtree(before, target)|
  {
    TargetRemains(before, now, target, stack + [Item(p, false)]);
    LinkedAfterExpand(now, stack, p, entries);
    ListedAfterExpand(now, target, stack, p, entries);
    TurnOfExpand(before, now, target, stack, p, entries);
    TurnsAreBounded(before, now, target, stack + [Item(p, true)] + Opened(entries));
    StackIsBounded(now, target, stack + [Item(p, true)] + Opened(entries), before);
  }

  /** While anything is left to do, the target is. */
  lemma TargetRemains(before: map<Path, Node>, now: map<Path, Node>, target: Path, stack: seq<Item>)
    requires Work(before, now, target, stack) && stack != []
    ensures target in now
  {
    var p := stack[0].path;
    if p != target {
      BelowIsUnderDirectory(now, target, p);
    }
  }

  /** The same for unlinking. */
  lemma UnlinkTurn(before: map<Path, Node>, now: map<Path, Node>, target: Path, stack: seq<Item>)
    requires Work(before, now, target, stack) && stack != []
    requires var top := stack[|stack| - 1]; now[top.path].Dir? ==> top.expanded
    ensures var p, rest := stack[|stack| - 1].path, stack[..|stack| - 1];
      && (forall q <- now :: q != [] ==> Parent(q) != p)
      && Work(before, now - {p}, target, rest)
      && Turns(before, now - {p}, rest) == Turns(before, now, stack) + 1
      && Turns(before, now - {p}, rest) <= Visits(before, Subtree(before, target))
  {
    var top := stack[|stack| - 1];
    forall q | q in now && q != []
      ensures Parent(q) != top.path
    {
      if now[top.path].Dir? {
        assert ChildrenAbove(now, stack, |stack| - 1);
      }
    }
    AfterUnlink(before, now, target, stack);
    TurnOfUnlink(before, now, target, stack);
    TurnsAreBounded(before, now - {top.path}, target, stack[..|stack| - 1]);
  }

  class FileSystem {
    var nodes: map<Path, Node>
    // A reliable system never refuses to remove an entry.
    const reliable: bool

    constructor (nodes: map<Path, Node>, reliable: bool)
      ensures this.nodes == nodes && this.reliable == reliable
    {
      this.nodes, this.reliable := nodes, reliable;
    }

    /** The operating system removes only files, links and empty directories. */
    method Unlink(p: Path) returns (ok: bool)
      requires Tree(nodes) && p in nodes
      requires forall q <- nodes :: q != [] ==> Parent(q) != p
      modifies this
      ensures nodes == if ok then old(nodes) - {p} else old(nodes)
      ensures Tree(nodes) && (reliable ==> ok)
    {
      ok := *;
      ok := ok || reliable;
      if ok {
        nodes := nodes - {p};
      }
    }

    /** Lists a directory in whatever order the system likes. */
    method ReadDirectory(p: Path) returns (entries: seq<Path>)
      ensures forall q :: q in entries <==> q in nodes && q != [] && Parent(q) == p
      ensures forall i, j :: 0 <= i < j < |entries| ==> entries[i] != entries[j]
    {
      var rest := set q | q in nodes && q != [] && Parent(q) == p;
      var all := rest;
      entries := [];
      while rest != {}
        invariant rest <= all
        invariant forall q :: q in entries <==> q in all - rest
        invariant forall i, j :: 0 <= i < j < |entries| ==> entries[i] != entries[j]
        decreases rest
      {
        var q :| q in rest;
        assert q !in entries;
        entries := entries + [q];
        rest := rest - {q};
      }
    }

    /** Pushes the children of an opened directory, watching the size of the stack. */
    method PushAll(stack: seq<Item>, entries: seq<Path>) returns (pushed: seq<Item>, exceeded: bool)
      // The size is looked at before each push.
      ensures exceeded <==> entries != [] && |stack| + |entries| > MAX_STACK + 1
      ensures !exceeded ==> pushed == stack + Opened(entries)
    {
      pushed, exceeded := stack, false;
      for i := 0 to |entries|
        invariant pushed == stack + Opened(entries)[..i]
        invariant i > 0 ==> |stack| + i <= MAX_STACK + 1
      {
        if |pushed| > MAX_STACK {
          return pushed, true;
        }
        pushed := pushed + [Item(entries[i], false)];
      }
    }

    /** Deletes `target`, which must be a direct child of `owner`. Whatever the result, only
        paths under the target are gone and the rest still is a tree. */
    method RemoveOwned(owner: Path, target: Path, slow: bool) returns (result: Result, visited: nat)
      requires Tree(nodes)
      modifies this
      ensures Partial(old(nodes), nodes, target)
      ensures result.OutsideOwner? <==> target == [] || Parent(target) != owner
      ensures result.OutsideOwner? ==> nodes == old(nodes)
      ensures result.Removed? ==> nodes == old(nodes) - Subtree(old(nodes), target)
      ensures result.Removed? && target in old(nodes) && !old(nodes)[target].Link? ==>
        visited == Visits(old(nodes), Subtree(old(nodes), target)) <= 2_000_000
      ensures result.OutsideOwner? || target !in old(nodes) || old(nodes)[target].Link? ==> visited == 0
      ensures result.BoundExceeded? ==>
        || Visits(old(nodes), Subtree(old(nodes), target)) > 2_000_000
        || |Subtree(old(nodes), target)| > 1_000_000
      ensures result.TimedOut? ==> slow
      ensures result.IoFailed? ==> !reliable
    {
      visited := 0;
      if target == [] || Parent(target) != owner {
        return OutsideOwner, 0;
      }
      ghost var before := nodes;
      if target !in nodes {
        NothingBelow(nodes, target);
        return Removed, 0;
      }
      if nodes[target].Link? {
        var unlinked := Unlink(target);
        NothingBelow(nodes, target);
        return if unlinked then Removed else IoFailed, 0;
      }
      var stack := [Item(target, false)];
      while stack != []
        invariant Work(before, nodes, target, stack)
        invariant visited == Turns(before, nodes, stack) <= MAX_VISITS
        decreases Visits(before, Subtree(before, target)) - visited
      {
        result, stack, visited := Turn(target, stack, visited, slow, before);
        if !result.Removed? {
          return;
        }
      }
      NothingBelow(nodes, target);
      assert Gone(before, nodes) == Subtree(before, target);
      result := Removed;
    }

    /** One turn of the loop. */
    method Turn(target: Path, stack: seq<Item>, visits: nat, slow: bool, ghost before: map<Path, Node>)
      returns (result: Result, rest: seq<Item>, visited: nat)
      requires Work(before, nodes, target, stack) && stack != [] && visits == Turns(before, nodes, stack)
      modifies this
      ensures Partial(before, nodes, target)
      ensures result.Removed? || result.BoundExceeded? || result.TimedOut? || result.IoFailed?
      ensures result.Removed? ==> Work(before, nodes, target, rest) && visited == Turns(before, nodes, rest) == visits + 1
      ensures result.Removed? ==> visited <= Visits(before, Subtree(before, target)) && visited <= MAX_VISITS
      ensures result.BoundExceeded? ==>
        || Visits(before, Subtree(before, target)) > MAX_VISITS
        || |Subtree(before, target)| > MAX_STACK
      ensures (result.TimedOut? ==> slow) && (result.IoFailed? ==> !reliable)
    {
      var top := stack[|stack| - 1];
      rest, visited := stack[..|stack| - 1], visits + 1;
      var late: bool := *;
      assert stack == rest + [top];
      var entries, opening := [], nodes[top.path].Dir? && !top.expanded;
      if opening {
        entries := ReadDirectory(top.path);
        OpenTurn(before, nodes, target, rest, top.path, entries);
      } else {
        UnlinkTurn(before, nodes, target, stack);
      }
      if visited > MAX_VISITS {
        result := BoundExceeded;
      } else if slow && late {
        result := TimedOut;
      } else if opening {
        var exceeded;
        rest, exceeded := PushAll(rest + [Item(top.path, true)], entries);
        result := if exceeded then BoundExceeded else Removed;
      } else {
        var ok := Unlink(top.path);
        result := if ok then Removed else IoFailed;
      }
    }
  }

  lemma NothingBelow(fs: map<Path, Node>, target: Path)
    requires Tree(fs) && (target !in fs || !fs[target].Dir?)
    ensures Subtree(fs, target) == if target in fs then {target} else {}
  {
    forall p | p in Subtree(fs, target) && p != target
      ensures false
    {
      BelowIsUnderDirectory(fs, target, p);
    }
  }
}
