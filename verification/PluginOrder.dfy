/** The order in which disabled plugins come back. Every enable order restores the original list
    exactly when, of two disabled neighbours, the front one was always disabled first. */
module PluginOrder {
  import opened Wrappers
  import opened PluginIsolation

  function Members(s: seq<Package>): set<Package> {
    set x | x in s
  }

  function Off(records: seq<Saved>): set<Package> {
    set r | r in records :: r.package
  }

  function After(whole: seq<Package>, package: Package): seq<Package>
    requires package in whole
  {
    whole[IndexOf(whole, package) + 1..]
  }

  ghost function EnableAll(m: Manifest, packages: seq<Package>): Manifest
    decreases packages
  {
    if packages == [] then m else EnableAll(Enable(m, packages[0]), packages[1..])
  }

  // ------------------------------------------------------------------ lists without some members

  lemma {:induction false} DropMore(s: seq<Package>, off: set<Package>, x: Package)
    requires x !in s
    ensures Drop(s, off + {x}) == Drop(s, off) == Drop(s, off - {x})
  {
    if s != [] {
      DropMore(s[1..], off, x);
    }
  }

  lemma {:induction false} DropSame(s: seq<Package>, a: set<Package>, b: set<Package>)
    requires forall x :: x in s ==> (x in a <==> x in b)
    ensures Drop(s, a) == Drop(s, b)
  {
    if s != [] {
      DropSame(s[1..], a, b);
    }
  }

  lemma {:induction false} DropTwice(s: seq<Package>, some: set<Package>, all: set<Package>)
    requires some <= all
    ensures Drop(Drop(s, some), all) == Drop(s, all)
  {
    if s != [] {
      DropTwice(s[1..], some, all);
      if s[0] !in some {
        assert Drop(s, some)[1..] == Drop(s[1..], some);
      }
    }
  }

  lemma DropSplitAround(front: seq<Package>, package: Package, behind: seq<Package>, off: set<Package>)
    ensures Drop(front + [package] + behind, off)
      == Drop(front, off) + (if package in off then [] else [package]) + Drop(behind, off)
  {
    DropSplit(front + [package], behind, off);
    DropSplit(front, [package], off);
    assert Drop([package], off) == if package in off then [] else [package];
  }

  lemma DropWithout(front: seq<Package>, package: Package, behind: seq<Package>, off: set<Package>)
    requires package !in front + behind
    ensures Drop(front + [package] + behind, off + {package}) == Drop(front, off) + Drop(behind, off)
  {
    assert package !in front && package !in behind;
    DropMore(front, off, package);
    DropMore(behind, off, package);
    DropSplitAround(front, package, behind, off + {package});
    assert Drop(front, off) + [] == Drop(front, off);
  }

  lemma DropWith(front: seq<Package>, package: Package, behind: seq<Package>, off: set<Package>)
    requires package !in front + behind
    ensures Drop(front + [package] + behind, off - {package}) == Drop(front, off) + [package] + Drop(behind, off)
  {
    assert package !in front && package !in behind;
    DropMore(front, off, package);
    DropMore(behind, off, package);
    DropSplitAround(front, package, behind, off - {package});
  }

  /** Where a package stands among the active ones, with and without it. */
  lemma DropAround(front: seq<Package>, package: Package, behind: seq<Package>, off: set<Package>)
    requires package !in front + behind
    ensures Drop(front + [package] + behind, off + {package}) == Drop(front, off) + Drop(behind, off)
    ensures Drop(front + [package] + behind, off - {package}) == Drop(front, off) + [package] + Drop(behind, off)
  {
    DropWithout(front, package, behind, off);
    DropWith(front, package, behind, off);
  }

  lemma SplitAt(whole: seq<Package>, package: Package) returns (front: seq<Package>, behind: seq<Package>)
    requires Distinct(whole) && package in whole
    ensures whole == front + [package] + behind && behind == After(whole, package)
    ensures package !in front + behind && forall x :: x in behind ==> x !in front
  {
    var i := IndexOf(whole, package);
    front, behind := whole[..i], whole[i + 1..];
    CutOut(front, package, behind);
  }

  lemma {:induction false} IndexOfPrefix(s: seq<Package>, x: Package, y: Package)
    requires x in s
    ensures IndexOf(s + [y], x) == IndexOf(s, x) && (s + [y])[..IndexOf(s, x)] == s[..IndexOf(s, x)]
  {
    if s[0] != x {
      assert (s + [y])[1..] == s[1..] + [y];
      IndexOfPrefix(s[1..], x, y);
    }
  }

  // ------------------------------------------------------------------ the search for a successor

  lemma {:induction false} FirstPresentIsNext(following: seq<Package>, left: seq<Package>, off: set<Package>, tail: seq<Package>)
    requires Drop(following, off) != []
    requires forall x :: x in following ==> x !in left
    requires forall x :: x in following && x in off ==> x !in tail
    ensures FirstPresent(following, left + Drop(following, off) + tail) == Some(|left|)
  {
    var right := Drop(following, off);
    if following[0] in off {
      DropMembers(following, off);
      assert following[0] !in left + right + tail;
      FirstPresentIsNext(following[1..], left, off, tail);
    } else {
      IndexAt(left, following[0], right[1..] + tail);
      assert left + [following[0]] + (right[1..] + tail) == left + right + tail;
    }
  }

  lemma {:induction false} FirstPresentPrefix(a: seq<Package>, b: seq<Package>, bundles: seq<Package>)
    requires FirstPresent(a, bundles).Some?
    ensures FirstPresent(a + b, bundles) == FirstPresent(a, bundles)
  {
    assert a != [] ==> (a + b)[1..] == a[1..] + b;
    if a[0] !in bundles {
      FirstPresentPrefix(a[1..], b, bundles);
    }
  }

  // ------------------------------------------------------------------ what the records hold

  /** The record of a package lists its successors without those disabled before it. */
  ghost predicate Remembered(saved: Saved, whole: seq<Package>, disables: seq<Package>) {
    && saved.package in whole && saved.package in disables
    && saved.following == Drop(After(whole, saved.package), Members(disables[..IndexOf(disables, saved.package)]))
  }

  ghost predicate History(m: Manifest, whole: seq<Package>, disables: seq<Package>) {
    && m.bundles == Drop(whole, Members(disables))
    && (forall r :: r in m.records ==> Remembered(r, whole, disables))
    && (forall p :: p in whole && p in disables ==> Find(m.records, p).Some?)
  }

  lemma RememberedStays(saved: Saved, whole: seq<Package>, disables: seq<Package>, next: Package)
    requires Remembered(saved, whole, disables)
    ensures Remembered(saved, whole, disables + [next])
  {
    IndexOfPrefix(disables, saved.package, next);
  }

  lemma HistoryStep(m: Manifest, whole: seq<Package>, disables: seq<Package>, next: Package)
    requires Distinct(whole) && History(m, whole, disables)
    ensures History(Disable(m, next), whole, disables + [next])
  {
    var off := Members(disables);
    assert Members(disables + [next]) == off + {next};
    DropMembers(whole, off);
    forall r | r in m.records ensures Remembered(r, whole, disables + [next]) {
      RememberedStays(r, whole, disables, next);
    }
    if next in m.bundles {
      var left := ActiveStep(m, whole, disables, next);
      NewIsRemembered(whole, disables, next, left);
      HistoryGrows(m, whole, disables, Saved(next, |left|, Drop(After(whole, next), off)));
    } else {
      DropSame(whole, off + {next}, off);
    }
  }

  /** What disabling an active package makes of the list and the records. */
  lemma ActiveStep(m: Manifest, whole: seq<Package>, disables: seq<Package>, next: Package) returns (left: seq<Package>)
    requires Distinct(whole) && History(m, whole, disables) && next in m.bundles
    ensures next in whole && next !in disables
    ensures Disable(m, next) == Manifest(Drop(whole, Members(disables) + {next}),
              m.records + [Saved(next, |left|, Drop(After(whole, next), Members(disables)))])
  {
    var off := Members(disables);
    DropMembers(whole, off);
    var front, behind := SplitAt(whole, next);
    DropAround(front, next, behind, off);
    assert off - {next} == off;
    left := Drop(front, off);
    DropMembers(front, off);
    assert Find(m.records, next).None?;
    DisableAt(left, next, Drop(behind, off), m.records);
  }

  lemma NewIsRemembered(whole: seq<Package>, disables: seq<Package>, next: Package, left: seq<Package>)
    requires next in whole && next !in disables
    ensures Remembered(Saved(next, |left|, Drop(After(whole, next), Members(disables))), whole, disables + [next])
  {
    IndexAt(disables, next, []);
    assert disables + [next] + [] == disables + [next];
    assert (disables + [next])[..|disables|] == disables;
  }

  lemma HistoryGrows(m: Manifest, whole: seq<Package>, disables: seq<Package>, saved: Saved)
    requires History(m, whole, disables)
    ensures forall p :: p in whole && p in disables + [saved.package] ==> Find(m.records + [saved], p).Some?
  {
    forall p | p in whole && p in disables + [saved.package] ensures Find(m.records + [saved], p).Some? {
      FindAppended(m.records, saved, p);
    }
  }

  lemma {:induction false} DisablingMakesHistory(whole: seq<Package>, disables: seq<Package>)
    requires Distinct(whole)
    ensures History(DisableAll(Manifest(whole, []), disables), whole, disables)
  {
    if disables == [] {
      assert Members(disables) == {};
      DropNothing(whole, {});
    } else {
      var before, next := disables[..|disables| - 1], disables[|disables| - 1];
      DisablingMakesHistory(whole, before);
      HistoryStep(DisableAll(Manifest(whole, []), before), whole, before, next);
      assert before + [next] == disables;
    }
  }

  // ------------------------------------------------------------------ the condition

  /** Of two disabled neighbours the front one was disabled first. */
  ghost predicate InOrder(whole: seq<Package>, disables: seq<Package>, i: nat)
    requires i + 1 < |whole|
  {
    whole[i] in disables && whole[i + 1] in disables ==>
      IndexOf(disables, whole[i]) < IndexOf(disables, whole[i + 1])
  }

  ghost predicate NeighboursInOrder(whole: seq<Package>, disables: seq<Package>) {
    forall i :: 0 <= i < |whole| - 1 ==> InOrder(whole, disables, i)
  }

  lemma {:induction false} RanksRise(whole: seq<Package>, disables: seq<Package>, i: nat, j: nat)
    requires NeighboursInOrder(whole, disables) && i < j < |whole|
    requires forall k :: i <= k <= j ==> whole[k] in disables
    ensures IndexOf(disables, whole[i]) < IndexOf(disables, whole[j])
  {
    assert InOrder(whole, disables, j - 1);
    if i < j - 1 {
      RanksRise(whole, disables, i, j - 1);
    }
  }

  // ------------------------------------------------------------------ it suffices

  /** The first position that is never disabled. */
  function NextFree(s: seq<Package>, off: set<Package>): (k: nat)
    requires s != [] && s[|s| - 1] !in off
    ensures k < |s| && s[k] !in off && forall j :: 0 <= j < k ==> s[j] in off
  {
    if s[0] !in off then 0 else 1 + NextFree(s[1..], off)
  }

  /** The record lists every successor up to the first that is never disabled. */
  ghost predicate Anchored(saved: Saved, whole: seq<Package>, all: set<Package>) {
    && saved.package in whole
    && var s := After(whole, saved.package);
    && s != [] && s[|s| - 1] !in all
    && |saved.following| > NextFree(s, all)
    && saved.following[..NextFree(s, all) + 1] == s[..NextFree(s, all) + 1]
  }

  /** The profile still remembers `whole`: what is active is in order, and every record is
      anchored. `all` are the plugins that were ever disabled; the last is not among them. */
  ghost predicate Remembers(m: Manifest, whole: seq<Package>, all: set<Package>) {
    && Distinct(whole) && whole != [] && whole[|whole| - 1] !in all
    && Off(m.records) <= all
    && m.bundles == Drop(whole, Off(m.records))
    && forall r :: r in m.records ==> Anchored(r, whole, all)
  }

  /** Nothing up to the first free successor was disabled before the package itself. */
  lemma NearLater(whole: seq<Package>, disables: seq<Package>, package: Package, k: nat)
    requires NeighboursInOrder(whole, disables) && package in whole && package in disables
    requires k < |After(whole, package)| && After(whole, package)[k] !in disables
    requires forall j :: 0 <= j < k ==> After(whole, package)[j] in disables
    ensures forall j :: 0 <= j <= k ==> After(whole, package)[j] !in disables[..IndexOf(disables, package)]
  {
    var i, rank, s := IndexOf(whole, package), IndexOf(disables, package), After(whole, package);
    forall j | 0 <= j <= k ensures s[j] !in disables[..rank] {
      if j < k {
        forall n | i <= n <= i + 1 + j ensures whole[n] in disables {
          assert n == i || whole[n] == s[n - i - 1];
        }
        RanksRise(whole, disables, i, i + 1 + j);
        IndexIsFirst(disables, rank, s[j]);
      }
    }
  }

  lemma OrderAnchors(saved: Saved, whole: seq<Package>, disables: seq<Package>)
    requires Distinct(whole) && whole != [] && whole[|whole| - 1] !in disables
    requires NeighboursInOrder(whole, disables) && Remembered(saved, whole, disables)
    ensures Anchored(saved, whole, Members(disables))
  {
    var s, all := After(whole, saved.package), Members(disables);
    var earlier := Members(disables[..IndexOf(disables, saved.package)]);
    assert s != [] && s[|s| - 1] == whole[|whole| - 1];
    var k := NextFree(s, all);
    NearLater(whole, disables, saved.package, k);
    DropPrefix(s, k + 1, earlier);
  }

  lemma DropPrefix(s: seq<Package>, n: nat, off: set<Package>)
    requires n <= |s| && forall j :: 0 <= j < n ==> s[j] !in off
    ensures |Drop(s, off)| >= n && Drop(s, off)[..n] == s[..n]
  {
    DropNothing(s[..n], off);
    DropSplit(s[..n], s[n..], off);
    assert s == s[..n] + s[n..];
  }

  lemma IndexIsFirst(s: seq<Package>, n: nat, x: Package)
    requires x in s && n <= IndexOf(s, x)
    ensures x !in s[..n]
  {
    assert s[..n] == s[..IndexOf(s, x)][..n];
  }

  lemma HistoryRemembers(m: Manifest, whole: seq<Package>, disables: seq<Package>)
    requires Distinct(whole) && whole != [] && whole[|whole| - 1] !in disables
    requires NeighboursInOrder(whole, disables) && History(m, whole, disables)
    ensures Remembers(m, whole, Members(disables))
  {
    forall r | r in m.records ensures Anchored(r, whole, Members(disables)) {
      OrderAnchors(r, whole, disables);
    }
    forall p | p in whole ensures p in Members(disables) <==> p in Off(m.records) {
      if p in disables {
        assert Find(m.records, p).value in m.records;
      }
    }
    DropSame(whole, Members(disables), Off(m.records));
  }

  /** A list whose last member is active leads to its first active member. */
  lemma NearFinds(near: seq<Package>, rest: seq<Package>, far: seq<Package>, off: set<Package>, left: seq<Package>)
    requires near != [] && near[|near| - 1] !in off
    requires forall x :: x in near ==> x !in left && x !in far
    ensures FirstPresent(near + rest, left + Drop(near + far, off)) == Some(|left|)
  {
    DropSplit(near, far, off);
    DropMembers(near, off);
    DropMembers(far, off);
    assert near[|near| - 1] in Drop(near, off);
    FirstPresentIsNext(near, left, off, Drop(far, off));
    assert left + Drop(near, off) + Drop(far, off) == left + Drop(near + far, off);
    FirstPresentPrefix(near, rest, left + Drop(near + far, off));
  }

  /** A list that agrees with `s` up to an active member leads to the first active member of `s`. */
  lemma PrefixFinds(s: seq<Package>, following: seq<Package>, n: nat, off: set<Package>, left: seq<Package>)
    requires 0 < n <= |s| && n <= |following| && following[..n] == s[..n] && s[n - 1] !in off
    requires Distinct(s) && forall x :: x in s ==> x !in left
    ensures FirstPresent(following, left + Drop(s, off)) == Some(|left|)
  {
    var near, far := s[..n], s[n..];
    assert near[n - 1] == s[n - 1];
    forall x | x in near ensures x !in left && x !in far {
      assert x in s;
    }
    NearFinds(near, following[n..], far, off, left);
    assert near + far == s;
    assert near + following[n..] == following;
  }

  lemma OffRetained(records: seq<Saved>, package: Package)
    ensures Off(Retain(records, package)) == Off(records) - {package}
  {
    RetainMembers(records, package);
  }

  /** The next active plugin behind an anchored record is found, whatever came back before. */
  lemma AnchorFinds(saved: Saved, whole: seq<Package>, all: set<Package>, off: set<Package>, front: seq<Package>)
    requires Distinct(whole) && Anchored(saved, whole, all) && off <= all
    requires whole == front + [saved.package] + After(whole, saved.package)
    ensures FirstPresent(saved.following, Drop(front, off) + Drop(After(whole, saved.package), off)) == Some(|Drop(front, off)|)
  {
    var s := After(whole, saved.package);
    CutOut(front, saved.package, s);
    DropMembers(front, off);
    PrefixFinds(s, saved.following, NextFree(s, all) + 1, off, Drop(front, off));
  }

  lemma WithAndWithout(whole: seq<Package>, front: seq<Package>, package: Package, behind: seq<Package>, off: set<Package>)
    requires Distinct(whole) && whole == front + [package] + behind && package in off
    ensures Drop(whole, off) == Drop(front, off) + Drop(behind, off)
    ensures Drop(whole, off - {package}) == Drop(front, off) + [package] + Drop(behind, off)
    ensures package !in Drop(front, off) + Drop(behind, off)
  {
    CutOut(front, package, behind);
    DropAround(front, package, behind, off);
    assert off + {package} == off;
    DropMembers(front, off);
    DropMembers(behind, off);
  }

  /** An anchored record brings its package back to its place. */
  lemma EnableReplaces(m: Manifest, whole: seq<Package>, all: set<Package>, package: Package)
    requires Remembers(m, whole, all) && package in Off(m.records)
    ensures Enable(m, package) == Manifest(Drop(whole, Off(m.records) - {package}), Retain(m.records, package))
  {
    var off, saved := Off(m.records), Find(m.records, package).value;
    assert Anchored(saved, whole, all);
    var front, behind := SplitAt(whole, package);
    AnchorFinds(saved, whole, all, off, front);
    WithAndWithout(whole, front, package, behind, off);
    EnableAt(Drop(front, off), package, Drop(behind, off), m.records);
  }

  lemma EnableRemembers(m: Manifest, whole: seq<Package>, all: set<Package>, package: Package)
    requires Remembers(m, whole, all)
    ensures Remembers(Enable(m, package), whole, all)
    ensures Off(Enable(m, package).records) == Off(m.records) - {package}
  {
    if package in Off(m.records) {
      EnableReplaces(m, whole, all, package);
      RetainMembers(m.records, package);
      OffRetained(m.records, package);
    }
  }

  lemma {:induction false} EnableAllRemembers(m: Manifest, whole: seq<Package>, all: set<Package>, packages: seq<Package>)
    requires Remembers(m, whole, all)
    ensures Remembers(EnableAll(m, packages), whole, all)
    ensures Off(EnableAll(m, packages).records) == Off(m.records) - Members(packages)
    decreases packages
  {
    if packages != [] {
      EnableRemembers(m, whole, all, packages[0]);
      EnableAllRemembers(Enable(m, packages[0]), whole, all, packages[1..]);
      assert Members(packages) == {packages[0]} + Members(packages[1..]);
    }
  }

  lemma NothingOff(m: Manifest, whole: seq<Package>, all: set<Package>)
    requires Remembers(m, whole, all) && Off(m.records) == {}
    ensures m == Manifest(whole, [])
  {
    DropNothing(whole, {});
    assert |m.records| > 0 ==> m.records[0].package in Off(m.records);
  }

  ghost predicate Covers(enables: seq<Package>, disables: seq<Package>) {
    forall d :: d in disables ==> d in enables
  }

  ghost predicate Restores(whole: seq<Package>, disables: seq<Package>, enables: seq<Package>) {
    EnableAll(DisableAll(Manifest(whole, []), disables), enables) == Manifest(whole, [])
  }

  /** When of two disabled neighbours the front one was always disabled first, every enable order
      restores the list and leaves no record. */
  lemma AnyEnableOrderRestores(whole: seq<Package>, disables: seq<Package>, enables: seq<Package>)
    requires Distinct(whole) && whole != [] && whole[|whole| - 1] !in disables
    requires NeighboursInOrder(whole, disables) && Covers(enables, disables)
    ensures Restores(whole, disables, enables)
  {
    var m, all := DisableAll(Manifest(whole, []), disables), Members(disables);
    DisablingMakesHistory(whole, disables);
    HistoryRemembers(m, whole, disables);
    EnableAllRemembers(m, whole, all, enables);
    assert Off(EnableAll(m, enables).records) == {};
    NothingOff(EnableAll(m, enables), whole, all);
  }

  // ------------------------------------------------------------------ it is necessary

  ghost predicate Before(s: seq<Package>, q: Package, p: Package) {
    exists i, j :: 0 <= i < j < |s| && s[i] == q && s[j] == p
  }

  /** Relative order does not depend on a third package. */
  lemma {:induction false} BeforeWithout(s: seq<Package>, q: Package, p: Package, r: Package)
    requires r != q && r != p
    ensures Before(s, q, p) <==> Before(Drop(s, {r}), q, p)
  {
    if s != [] {
      BeforeWithout(s[1..], q, p, r);
      BeforeFromFirst(s, q, p);
      DropMembers(s[1..], {r});
      if s[0] != r {
        BeforeFromFirst(Drop(s, {r}), q, p);
        assert Drop(s, {r})[1..] == Drop(s[1..], {r});
      }
    }
  }

  lemma BeforeFromFirst(s: seq<Package>, q: Package, p: Package)
    requires s != []
    ensures Before(s, q, p) <==> (s[0] == q && p in s[1..]) || Before(s[1..], q, p)
  {
    if Before(s, q, p) {
      var i, j :| 0 <= i < j < |s| && s[i] == q && s[j] == p;
      assert s[1..][j - 1] == p;
      if i > 0 {
        assert s[1..][i - 1] == q;
      }
    }
    if s[0] == q && p in s[1..] {
      var j :| 0 <= j < |s[1..]| && s[1..][j] == p;
      assert s[j + 1] == p;
    }
    if Before(s[1..], q, p) {
      var i, j :| 0 <= i < j < |s[1..]| && s[1..][i] == q && s[1..][j] == p;
      assert s[i + 1] == q && s[j + 1] == p;
    }
  }

  /** Two plugins without records never change their relative order again. */
  lemma {:induction false} EnablingKeepsOrder(m: Manifest, packages: seq<Package>, q: Package, p: Package)
    requires Before(m.bundles, q, p) && Find(m.records, q).None? && Find(m.records, p).None?
    ensures Before(EnableAll(m, packages).bundles, q, p)
    decreases packages
  {
    if packages != [] {
      var r := packages[0];
      if r != q && r != p {
        OrderOfOthersKept(m, r, false);
        BeforeWithout(m.bundles, q, p, r);
        BeforeWithout(Enable(m, r).bundles, q, p, r);
        FindRetained(m.records, r, q);
        FindRetained(m.records, r, p);
      }
      EnablingKeepsOrder(Enable(m, r), packages[1..], q, p);
    }
  }

  /** Two disabled neighbours, the rear one disabled first. */
  lemma SwappedNeighbours(whole: seq<Package>, disables: seq<Package>)
      returns (front: seq<Package>, p: Package, q: Package, behind: seq<Package>)
    requires Distinct(whole) && !NeighboursInOrder(whole, disables)
    ensures whole == front + [p, q] + behind && p in disables && q in disables
    ensures IndexOf(disables, q) < IndexOf(disables, p)
  {
    var i :| 0 <= i < |whole| - 1 && !InOrder(whole, disables, i);
    front, p, q, behind := whole[..i], whole[i], whole[i + 1], whole[i + 2..];
    assert disables[IndexOf(disables, p)] == p && disables[IndexOf(disables, q)] == q;
  }

  lemma AfterNeighbours(whole: seq<Package>, front: seq<Package>, p: Package, q: Package, behind: seq<Package>)
    requires Distinct(whole) && whole == front + [p, q] + behind
    ensures p in whole && q in whole && After(whole, p) == [q] + behind && After(whole, q) == behind
  {
    assert whole[|front|] == p && whole[|front| + 1] == q;
    IndexInDistinct(whole, |front|);
    IndexInDistinct(whole, |front| + 1);
  }

  lemma SwappedBundles(front: seq<Package>, p: Package, q: Package, behind: seq<Package>, all: set<Package>)
    requires p in all && q in all
    ensures Drop(front + [p, q] + behind, all) == Drop(front, all) + Drop(behind, all)
  {
    DropSplit(front + [p, q], behind, all);
    DropSplit(front, [p, q], all);
    assert [p, q][1..] == [q] && [q][1..] == [];
    assert Drop([p, q], all) == Drop([q], all) == Drop([], all) == [];
  }

  /** Both records of swapped neighbours point behind the pair, to the same plugin. */
  lemma SwappedRecords(m: Manifest, whole: seq<Package>, disables: seq<Package>,
                       front: seq<Package>, p: Package, q: Package, behind: seq<Package>)
    requires Distinct(whole) && History(m, whole, disables) && whole == front + [p, q] + behind
    requires p in disables && q in disables && IndexOf(disables, q) < IndexOf(disables, p)
    ensures Find(m.records, p).Some? && Find(m.records, q).Some?
    ensures Find(m.records, q).value.following == Drop(behind, Members(disables[..IndexOf(disables, q)]))
    ensures Find(m.records, p).value.following == Drop(behind, Members(disables[..IndexOf(disables, p)]))
  {
    AfterNeighbours(whole, front, p, q, behind);
    assert Remembered(Find(m.records, p).value, whole, disables);
    assert Remembered(Find(m.records, q).value, whole, disables);
    assert disables[..IndexOf(disables, p)][IndexOf(disables, q)] == q;
    assert ([q] + behind)[1..] == behind;
  }

  lemma IndexInDistinct(s: seq<Package>, i: nat)
    requires Distinct(s) && i < |s|
    ensures IndexOf(s, s[i]) == i
  {
  }

  /** A record behind which everything listed is either off or in place points to the first of
      those in place. */
  lemma PointsBehind(behind: seq<Package>, some: set<Package>, all: set<Package>, left: seq<Package>)
    requires some <= all && Drop(behind, all) != [] && forall x :: x in behind ==> x !in left
    ensures FirstPresent(Drop(behind, some), left + Drop(behind, all)) == Some(|left|)
  {
    DropTwice(behind, some, all);
    DropMembers(behind, some);
    FirstPresentIsNext(Drop(behind, some), left, all, []);
    assert left + Drop(behind, all) + [] == left + Drop(behind, all);
  }

  /** Where both records point, before and after the rear neighbour is back. */
  lemma BothPointBehind(front: seq<Package>, p: Package, q: Package, behind: seq<Package>,
                        someP: set<Package>, someQ: set<Package>, all: set<Package>)
    requires Distinct(front + [p, q] + behind) && someP <= all && someQ <= all
    requires behind != [] && behind[|behind| - 1] !in all
    ensures var left, right := Drop(front, all), Drop(behind, all);
      && FirstPresent(Drop(behind, someQ), left + right) == Some(|left|)
      && FirstPresent(Drop(behind, someP), left + [q] + right) == Some(|left + [q]|)
      && p != q && p !in left + right && q !in left + right
  {
    SeparateParts(front, p, q, behind);
    DropMembers(front, all);
    DropMembers(behind, all);
    assert behind[|behind| - 1] in Drop(behind, all);
    PointsBehind(behind, someQ, all, Drop(front, all));
    PointsBehind(behind, someP, all, Drop(front, all) + [q]);
  }

  /** Enabling the rear neighbour first leaves the front one behind it. */
  lemma RearFirst(m: Manifest, whole: seq<Package>, disables: seq<Package>,
                  front: seq<Package>, p: Package, q: Package, behind: seq<Package>)
    requires Distinct(whole) && History(m, whole, disables) && whole == front + [p, q] + behind
    requires p in disables && q in disables && IndexOf(disables, q) < IndexOf(disables, p)
    requires whole[|whole| - 1] !in disables
    ensures var after := Enable(Enable(m, q), p);
      Before(after.bundles, q, p) && Find(after.records, q).None? && Find(after.records, p).None?
  {
    var all := Members(disables);
    SwappedRecords(m, whole, disables, front, p, q, behind);
    SwappedBundles(front, p, q, behind, all);
    LastBehind(whole, disables, front, p, q, behind);
    BothPointBehind(front, p, q, behind,
                    Members(disables[..IndexOf(disables, p)]), Members(disables[..IndexOf(disables, q)]), all);
    RearFirstPlaces(m, Drop(front, all), Drop(behind, all), p, q);
  }

  lemma LastBehind(whole: seq<Package>, disables: seq<Package>, front: seq<Package>, p: Package, q: Package, behind: seq<Package>)
    requires whole == front + [p, q] + behind && q in disables && whole[|whole| - 1] !in disables
    ensures behind != [] && behind[|behind| - 1] !in disables
  {
    assert whole[|front| + 1] == q;
    assert |whole| == |front| + 2 + |behind|;
  }

  lemma RearFirstPlaces(m: Manifest, left: seq<Package>, right: seq<Package>, p: Package, q: Package)
    requires m.bundles == left + right && p != q && p !in left + right && q !in left + right
    requires Find(m.records, p).Some? && Find(m.records, q).Some?
    requires FirstPresent(Find(m.records, q).value.following, left + right) == Some(|left|)
    requires FirstPresent(Find(m.records, p).value.following, left + [q] + right) == Some(|left + [q]|)
    ensures var after := Enable(Enable(m, q), p);
      Before(after.bundles, q, p) && Find(after.records, q).None? && Find(after.records, p).None?
  {
    EnableAt(left, q, right, m.records);
    var records := Retain(m.records, q);
    FindRetained(m.records, q, p);
    EnableAt(left + [q], p, right, records);
    var bundles := left + [q] + [p] + right;
    assert bundles[|left|] == q && bundles[|left| + 1] == p;
    RetainMembers(m.records, q);
    RetainMembers(records, p);
  }

  lemma SeparateParts(front: seq<Package>, p: Package, q: Package, behind: seq<Package>)
    requires Distinct(front + [p, q] + behind)
    ensures p != q && p !in front + behind && q !in front + behind
    ensures forall x :: x in behind ==> x !in front && x != q
  {
    assert front + [p] + ([q] + behind) == front + [p, q] + behind;
    assert front + [p] + [q] + behind == front + [p, q] + behind;
    CutOut(front, p, [q] + behind);
    CutOut(front + [p], q, behind);
    assert q in [q] + behind && forall x :: x in behind ==> x in [q] + behind;
  }

  /** Otherwise some enable order does not: the rear neighbour first, then the front one. */
  lemma SomeEnableOrderBreaks(whole: seq<Package>, disables: seq<Package>) returns (enables: seq<Package>)
    requires Distinct(whole) && whole != [] && whole[|whole| - 1] !in disables
    requires !NeighboursInOrder(whole, disables)
    ensures Covers(enables, disables) && !Restores(whole, disables, enables)
  {
    var m := DisableAll(Manifest(whole, []), disables);
    DisablingMakesHistory(whole, disables);
    var front, p, q, behind := SwappedNeighbours(whole, disables);
    RearFirst(m, whole, disables, front, p, q, behind);
    enables := [q, p] + disables;
    EnableTwoFirst(m, q, p, disables);
    EnablingKeepsOrder(Enable(Enable(m, q), p), disables, q, p);
    NotBefore(whole, |front|);
    assert whole[|front|] == p && whole[|front| + 1] == q;
  }

  lemma EnableTwoFirst(m: Manifest, q: Package, p: Package, rest: seq<Package>)
    ensures EnableAll(m, [q, p] + rest) == EnableAll(Enable(Enable(m, q), p), rest)
  {
    var enables := [q, p] + rest;
    assert enables[1..] == [p] + rest && ([p] + rest)[1..] == rest;
  }

  lemma NotBefore(whole: seq<Package>, i: nat)
    requires Distinct(whole) && i + 1 < |whole|
    ensures !Before(whole, whole[i + 1], whole[i])
  {
  }

  /** The exact condition under which the order of enabling is free. */
  lemma EnableOrderIsFree(whole: seq<Package>, disables: seq<Package>)
    requires Distinct(whole) && whole != [] && whole[|whole| - 1] !in disables
    ensures (forall enables :: Covers(enables, disables) ==> Restores(whole, disables, enables))
      <==> NeighboursInOrder(whole, disables)
  {
    if NeighboursInOrder(whole, disables) {
      forall enables | Covers(enables, disables) ensures Restores(whole, disables, enables) {
        AnyEnableOrderRestores(whole, disables, enables);
      }
    } else {
      var enables := SomeEnableOrderBreaks(whole, disables);
    }
  }

  /** The smallest case in which the order of enabling matters. */
  lemma EnableOrderMatters(a: Package, b: Package, core: Package)
    requires a != b && a != core && b != core
    ensures
      var start := Manifest([a, b, core], []);
      Enable(Enable(Disable(Disable(start, b), a), b), a) == Manifest([b, a, core], [])
  {
    DisableBehindAnother(a, b, core);
    DisableFront(a, b, core);
    EnableRear(a, b, core);
    EnableBehindAnother(a, b, core);
  }

  lemma DisableFront(a: Package, b: Package, core: Package)
    requires a != b && a != core
    ensures Disable(Manifest([a, core], [Saved(b, 1, [core])]), a) == Manifest([core], [Saved(b, 1, [core])] + [Saved(a, 0, [core])])
  {
    assert [] + [a] + [core] == [a, core] && [] + [core] == [core];
    DisableAt([], a, [core], [Saved(b, 1, [core])]);
  }

  lemma RetainSecond(first: Saved, second: Saved)
    requires first.package != second.package
    ensures Find([first] + [second], first.package) == Some(first)
    ensures Retain([first] + [second], first.package) == [second]
  {
    var records := [first] + [second];
    assert records[0] == first && records[1..] == [second] && [second][1..] == [];
    assert Retain([second], first.package) == [second] + Retain([], first.package);
  }

  lemma EnableRear(a: Package, b: Package, core: Package)
    requires a != b && b != core
    ensures Enable(Manifest([core], [Saved(b, 1, [core])] + [Saved(a, 0, [core])]), b) == Manifest([b, core], [Saved(a, 0, [core])])
  {
    assert [] + [b] + [core] == [b, core] && [] + [core] == [core];
    RetainSecond(Saved(b, 1, [core]), Saved(a, 0, [core]));
    EnableAt([], b, [core], [Saved(b, 1, [core])] + [Saved(a, 0, [core])]);
  }

  lemma DisableBehindAnother(a: Package, b: Package, core: Package)
    requires a != b
    ensures Disable(Manifest([a, b, core], []), b) == Manifest([a, core], [Saved(b, 1, [core])])
  {
    DisableAt([a], b, [core], []);
    assert [a] + [b] + [core] == [a, b, core] && [a] + [core] == [a, core];
  }

  lemma EnableBehindAnother(a: Package, b: Package, core: Package)
    requires a != b && a != core && b != core
    ensures Enable(Manifest([b, core], [Saved(a, 0, [core])]), a) == Manifest([b, a, core], [])
  {
    assert [b] + [core] + [] == [b, core] == [b] + [core];
    IndexAt([b], core, []);
    EnableAt([b], a, [core], [Saved(a, 0, [core])]);
    assert [b] + [a] + [core] == [b, a, core];
  }
}
