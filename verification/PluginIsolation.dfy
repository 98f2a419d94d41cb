/** Disabling and enabling the plugins of a profile: one manifest holds the active order and,
    for every disabled plugin, where it stood. */
module PluginIsolation {
  import opened Wrappers

  const RESERVED_SCOPE := "@deepseek-ai/"

  datatype Package = Package(name: string)

  /** Where a disabled plugin stood: its index and everything active after it. */
  datatype Saved = Saved(package: Package, index: nat, following: seq<Package>)

  datatype Manifest = Manifest(bundles: seq<Package>, records: seq<Saved>)

  datatype Outcome = Done | Refused | WriteFailed

  predicate Reserved(package: Package) {
    RESERVED_SCOPE <= package.name
  }

  predicate Distinct(s: seq<Package>) {
    forall i, j :: 0 <= i < j < |s| ==> s[i] != s[j]
  }

  function IndexOf(s: seq<Package>, x: Package): (i: nat)
    requires x in s
    ensures i < |s| && s[i] == x && x !in s[..i]
  {
    if s[0] == x then 0 else 1 + IndexOf(s[1..], x)
  }

  function Find(records: seq<Saved>, package: Package): (saved: Option<Saved>)
    ensures saved.Some? ==> saved.value in records && saved.value.package == package
    ensures saved.None? ==> forall r :: r in records ==> r.package != package
  {
    if records == [] then None
    else if records[0].package == package then Some(records[0])
    else Find(records[1..], package)
  }

  function Retain(records: seq<Saved>, package: Package): seq<Saved> {
    if records == [] then []
    else if records[0].package == package then Retain(records[1..], package)
    else [records[0]] + Retain(records[1..], package)
  }

  /** The position of the first listed successor that is active. */
  function FirstPresent(following: seq<Package>, bundles: seq<Package>): (place: Option<nat>)
    ensures place.Some? ==> place.value < |bundles|
  {
    if following == [] then None
    else if following[0] in bundles then Some(IndexOf(bundles, following[0]))
    else FirstPresent(following[1..], bundles)
  }

  function Place(saved: Saved, bundles: seq<Package>): (i: nat)
    ensures i <= |bundles|
  {
    var place := FirstPresent(saved.following, bundles);
    if place.Some? then place.value else if saved.index <= |bundles| then saved.index else |bundles|
  }

  /** A plugin returns in front of the first recorded successor that is active ... */
  lemma {:induction false} PlaceBefore(saved: Saved, bundles: seq<Package>, k: nat)
    requires k < |saved.following| && saved.following[k] in bundles
    requires forall j :: 0 <= j < k ==> saved.following[j] !in bundles
    ensures Place(saved, bundles) == IndexOf(bundles, saved.following[k])
    decreases k
  {
    if k > 0 {
      PlaceBefore(saved.(following := saved.following[1..]), bundles, k - 1);
    }
  }

  /** ... and without one at its recorded index, or at the end of a shorter list. */
  lemma {:induction false} PlaceWithout(saved: Saved, bundles: seq<Package>)
    requires forall x :: x in saved.following ==> x !in bundles
    ensures Place(saved, bundles) == if saved.index < |bundles| then saved.index else |bundles|
    decreases |saved.following|
  {
    if saved.following != [] {
      PlaceWithout(saved.(following := saved.following[1..]), bundles);
    }
  }

  function Disable(m: Manifest, package: Package): Manifest {
    if package in m.bundles then
      var i := IndexOf(m.bundles, package);
      Manifest(m.bundles[..i] + m.bundles[i + 1..],
               if Find(m.records, package).Some? then m.records
               else m.records + [Saved(package, i, m.bundles[i + 1..])])
    else m
  }

  function Enable(m: Manifest, package: Package): Manifest {
    match Find(m.records, package)
    case None => m
    case Some(saved) =>
      var i := Place(saved, m.bundles);
      Manifest(if package in m.bundles then m.bundles else m.bundles[..i] + [package] + m.bundles[i..],
               Retain(m.records, package))
  }

  function Switch(m: Manifest, package: Package, disabled: bool): Manifest {
    if disabled then Disable(m, package) else Enable(m, package)
  }

  /** Disabling one package after the other, as when the former policy file is taken over. */
  function DisableAll(m: Manifest, packages: seq<Package>): Manifest {
    if packages == [] then m else Disable(DisableAll(m, packages[..|packages| - 1]), packages[|packages| - 1])
  }

  predicate Known(m: Manifest, package: Package) {
    package in m.bundles || Find(m.records, package).Some?
  }

  /** What the interface shows as disabled. */
  ghost predicate Hidden(m: Manifest, package: Package) {
    package !in m.bundles && Find(m.records, package).Some?
  }

  /** Takes an active package out and records where it stood, unless a record exists. */
  method TakeOut(bundles: seq<Package>, records: seq<Saved>, package: Package)
    returns (active: seq<Package>, saves: seq<Saved>)
    ensures Manifest(active, saves) == Disable(Manifest(bundles, records), package)
  {
    active, saves := bundles, records;
    if package in active {
      var index := IndexOf(active, package);
      if Find(saves, package).None? {
        saves := saves + [Saved(package, index, active[index + 1..])];
      }
      active := active[..index] + active[index + 1..];
    }
  }

  class Profile {
    var bundles: seq<Package>
    var records: seq<Saved>
    var migrated: bool
    const legacy: seq<Package>
    // A reliable disk never fails a write.
    const reliable: bool

    constructor (bundles: seq<Package>, legacy: seq<Package>, reliable: bool)
      ensures Stored() == Manifest(bundles, []) && !migrated && this.legacy == legacy && this.reliable == reliable
    {
      this.bundles, this.records, this.migrated, this.legacy := bundles, [], false, legacy;
      this.reliable := reliable;
    }

    function Stored(): Manifest
      reads this
    {
      Manifest(bundles, records)
    }

    /** The manifest that a change starts from. */
    function Base(): Manifest
      reads this
    {
      if migrated then Stored() else DisableAll(Stored(), legacy)
    }

    predicate Refuses(package: Package)
      reads this
    {
      || Reserved(package)
      || (!migrated && exists i :: 0 <= i < |legacy| && Reserved(legacy[i]))
      || !Known(Base(), package)
    }

    /** Takes over the former policy, unless it names a package it may not. */
    method ImportLegacy() returns (valid: bool, active: seq<Package>, saves: seq<Saved>)
      ensures valid <==> migrated || forall i :: 0 <= i < |legacy| ==> !Reserved(legacy[i])
      ensures valid ==> Manifest(active, saves) == Base()
    {
      valid, active, saves := true, bundles, records;
      var n := 0;
      while !migrated && n < |legacy| && valid
        invariant n <= |legacy| && (migrated ==> n == 0)
        invariant valid <==> forall i :: 0 <= i < n ==> !Reserved(legacy[i])
        invariant valid ==> Manifest(active, saves) == DisableAll(Stored(), legacy[..n])
        decreases |legacy| - n
      {
        var item := legacy[n];
        assert legacy[..n + 1][..n] == legacy[..n];
        if Reserved(item) {
          valid := false;
        } else {
          active, saves := TakeOut(active, saves, item);
        }
        n := n + 1;
      }
      assert legacy[..|legacy|] == legacy;
    }

    /** One atomic write publishes the active order together with the restoration records. */
    method SetPluginDisabled(package: Package, disabled: bool) returns (outcome: Outcome)
      modifies this
      ensures outcome.Refused? <==> old(Refuses(package))
      ensures outcome.Refused? ==> unchanged(this)
      ensures outcome.Done? ==> migrated && Stored() == Switch(old(Base()), package, disabled)
      ensures outcome.WriteFailed? ==> !reliable
      ensures outcome.WriteFailed? ==>
        unchanged(this) || (migrated && Stored() == Switch(old(Base()), package, disabled))
    {
      var valid, active, saves := ImportLegacy();
      var saved := Find(saves, package);
      if !valid || Reserved(package) || (package !in active && saved.None?) {
        return Refused;
      }
      if disabled {
        active, saves := TakeOut(active, saves, package);
      } else if saved.Some? {
        if package !in active {
          var index := Place(saved.value, active);
          active := active[..index] + [package] + active[index..];
        }
        saves := Retain(saves, package);
      }
      var durable: bool;
      var written: bool := *;
      durable := *;
      written := written || reliable;
      if written || durable {
        bundles, records, migrated := active, saves, true;
      }
      outcome := if written then Done else WriteFailed;
    }

    /** The list shown as disabled, without repetition. */
    method DisabledPlugins() returns (shown: seq<Package>)
      ensures Distinct(legacy) ==> Distinct(shown)
      ensures forall p :: p in shown <==> Hidden(Stored(), p) || (!migrated && p in legacy)
    {
      shown := if migrated then [] else legacy;
      var n := 0;
      while n < |records|
        invariant n <= |records|
        invariant Distinct(legacy) ==> Distinct(shown)
        invariant forall p :: p in shown <==>
          (p !in bundles && exists i :: 0 <= i < n && records[i].package == p) || (!migrated && p in legacy)
      {
        var package := records[n].package;
        if package !in bundles && package !in shown {
          shown := shown + [package];
        }
        n := n + 1;
      }
      forall p ensures Find(records, p).Some? <==> exists i :: 0 <= i < |records| && records[i].package == p {
        FindIsExact(records, p);
      }
    }
  }

  lemma {:induction false} FindIsExact(records: seq<Saved>, p: Package)
    ensures Find(records, p).Some? <==> exists i :: 0 <= i < |records| && records[i].package == p
  {
    if Find(records, p).Some? {
      assert Find(records, p).value in records;
    }
  }

  lemma DisableBoth(a: Package, b: Package)
    requires a != b
    ensures Disable(Disable(Manifest([a, b], []), b), a) == Manifest([], [Saved(b, 1, []), Saved(a, 0, [])])
  {
    assert [] + [a] + [] == [a] && [a] + [b] + [] == [a, b] && [a] + [] == [a];
    DisableAt([a], b, [], []);
    DisableAt([], a, [], [Saved(b, 1, [])]);
  }

  lemma EnableBoth(a: Package, b: Package)
    requires a != b
    ensures Enable(Enable(Manifest([], [Saved(b, 1, []), Saved(a, 0, [])]), b), a) == Manifest([a, b], [])
  {
    var forB, forA := Saved(b, 1, []), Saved(a, 0, []);
    assert [] + [b] + [] == [b] && [] + [a] + [b] == [a, b];
    EnableAt([], b, [], [forB, forA]);
    assert Retain([forB, forA], b) == [forA] by {
      assert [forB, forA][1..] == [forA] && [forA][1..] == [];
      assert Retain([forA], b) == [forA] + Retain([], b);
    }
    EnableAt([], a, [b], [forA]);
  }

  /** Two plugins, disabled from the rear and enabled from the rear, end as they began. */
  lemma RearTwice(a: Package, b: Package)
    requires a != b
    ensures Enable(Enable(Disable(Disable(Manifest([a, b], []), b), a), b), a) == Manifest([a, b], [])
  {
    DisableBoth(a, b);
    EnableBoth(a, b);
  }

  // ------------------------------------------------------------------ what one change leaves alone

  /** The order of all packages outside `off`. */
  function Drop(s: seq<Package>, off: set<Package>): seq<Package> {
    if s == [] then [] else if s[0] in off then Drop(s[1..], off) else [s[0]] + Drop(s[1..], off)
  }

  lemma {:induction false} DropMembers(s: seq<Package>, off: set<Package>)
    ensures forall x :: x in Drop(s, off) <==> x in s && x !in off
  {
    if s != [] {
      DropMembers(s[1..], off);
    }
  }

  lemma {:induction false} DropSplit(a: seq<Package>, b: seq<Package>, off: set<Package>)
    ensures Drop(a + b, off) == Drop(a, off) + Drop(b, off)
  {
    if a == [] {
      assert a + b == b;
    } else {
      assert (a + b)[1..] == a[1..] + b;
      DropSplit(a[1..], b, off);
    }
  }

  lemma {:induction false} DropNothing(s: seq<Package>, off: set<Package>)
    requires forall x :: x in s ==> x !in off
    ensures Drop(s, off) == s
  {
    if s != [] {
      DropNothing(s[1..], off);
    }
  }

  /** No change reorders the other plugins. */
  lemma OrderOfOthersKept(m: Manifest, package: Package, disabled: bool)
    ensures Drop(Switch(m, package, disabled).bundles, {package}) == Drop(m.bundles, {package})
  {
    var s := m.bundles;
    if disabled && package in s {
      var i := IndexOf(s, package);
      assert s == s[..i] + ([package] + s[i + 1..]);
      DropSplit(s[..i], [package] + s[i + 1..], {package});
      DropSplit([package], s[i + 1..], {package});
      DropSplit(s[..i], s[i + 1..], {package});
    } else if !disabled && Find(m.records, package).Some? {
      var i := Place(Find(m.records, package).value, s);
      assert s == s[..i] + s[i..];
      assert s[..i] + [package] + s[i..] == s[..i] + ([package] + s[i..]);
      DropSplit(s[..i], s[i..], {package});
      DropSplit(s[..i], [package] + s[i..], {package});
      DropSplit([package], s[i..], {package});
    }
  }

  /** A change shows or hides its own package and no other. */
  lemma OnlyOwnPackageChanges(m: Manifest, package: Package, disabled: bool)
    requires Distinct(m.bundles) && Known(m, package)
    ensures Distinct(Switch(m, package, disabled).bundles)
    ensures Hidden(Switch(m, package, disabled), package) <==> disabled
    ensures forall q :: q != package ==>
      (Hidden(Switch(m, package, disabled), q) <==> Hidden(m, q))
      && Find(Switch(m, package, disabled).records, q) == Find(m.records, q)
  {
    var after := Switch(m, package, disabled);
    forall q | q != package
      ensures Find(after.records, q) == Find(m.records, q) && (q in after.bundles <==> q in m.bundles)
    {
      OrderOfOthersKept(m, package, disabled);
      DropMembers(after.bundles, {package});
      DropMembers(m.bundles, {package});
      if disabled {
        FindAppended(m.records, Saved(package, 0, []), q);
        FindInAfterDisable(m, package, q);
      } else {
        FindRetained(m.records, package, q);
      }
    }
    if disabled {
      FindInAfterDisable(m, package, package);
    }
  }

  lemma {:induction false} FindAppended(records: seq<Saved>, saved: Saved, q: Package)
    ensures Find(records + [saved], q) ==
      if Find(records, q).Some? then Find(records, q) else if saved.package == q then Some(saved) else None
  {
    if records == [] {
      assert records + [saved] == [saved];
    } else {
      assert (records + [saved])[1..] == records[1..] + [saved];
      FindAppended(records[1..], saved, q);
    }
  }

  lemma FindInAfterDisable(m: Manifest, package: Package, q: Package)
    requires Distinct(m.bundles) && Known(m, package)
    ensures q != package ==> Find(Disable(m, package).records, q) == Find(m.records, q)
    ensures Find(Disable(m, package).records, package).Some?
    ensures package !in Disable(m, package).bundles && Distinct(Disable(m, package).bundles)
  {
    if package in m.bundles {
      var i := IndexOf(m.bundles, package);
      FindAppended(m.records, Saved(package, i, m.bundles[i + 1..]), q);
      FindAppended(m.records, Saved(package, i, m.bundles[i + 1..]), package);
    }
  }

  lemma {:induction false} RetainMembers(records: seq<Saved>, package: Package)
    ensures forall r :: r in Retain(records, package) <==> r in records && r.package != package
  {
    if records != [] {
      RetainMembers(records[1..], package);
    }
  }

  lemma {:induction false} FindRetained(records: seq<Saved>, package: Package, q: Package)
    requires q != package
    ensures Find(Retain(records, package), q) == Find(records, q)
  {
    if records != [] {
      FindRetained(records[1..], package, q);
      if records[0].package != package {
        assert Retain(records, package)[1..] == Retain(records[1..], package);
      }
    }
  }

  /** Taking over the former policy hides exactly those of its packages that the profile knows. */
  lemma {:induction false} ImportHidesKnown(m: Manifest, legacy: seq<Package>, q: Package)
    requires Distinct(m.bundles)
    ensures Distinct(DisableAll(m, legacy).bundles)
    ensures Known(DisableAll(m, legacy), q) <==> Known(m, q)
    ensures Hidden(DisableAll(m, legacy), q) <==> Hidden(m, q) || (q in legacy && Known(m, q))
  {
    if legacy != [] {
      var before, item := legacy[..|legacy| - 1], legacy[|legacy| - 1];
      ImportHidesKnown(m, before, q);
      ImportHidesKnown(m, before, item);
      assert q in legacy <==> q in before || q == item;
      if Known(m, item) {
        OnlyOwnPackageChanges(DisableAll(m, before), item, true);
        OrderOfOthersKept(DisableAll(m, before), item, true);
      }
    }
  }

  // ------------------------------------------------------------------ well-nested changes

  /** Disable a package, do some nested work, enable it again. */
  datatype Block = Block(package: Package, inner: seq<Block>)

  ghost function PlayAll(blocks: seq<Block>, m: Manifest): Manifest
    decreases blocks
  {
    if blocks == [] then m else PlayAll(blocks[1..], Play(blocks[0], m))
  }

  ghost function Play(block: Block, m: Manifest): Manifest
    decreases block
  {
    Enable(PlayAll(block.inner, Disable(m, block.package)), block.package)
  }

  /** Every package is active when its block opens. */
  ghost predicate Opens(blocks: seq<Block>, m: Manifest)
    decreases blocks
  {
    forall i :: 0 <= i < |blocks| ==>
      blocks[i].package in m.bundles && Opens(blocks[i].inner, Disable(m, blocks[i].package))
  }

  predicate WellFormed(m: Manifest) {
    Distinct(m.bundles) && forall r :: r in m.records ==> r.package !in m.bundles
  }

  lemma {:induction false} IndexAt(left: seq<Package>, x: Package, right: seq<Package>)
    requires x !in left
    ensures IndexOf(left + [x] + right, x) == |left|
  {
    if left != [] {
      assert (left + [x] + right)[1..] == left[1..] + [x] + right;
      IndexAt(left[1..], x, right);
    }
  }

  /** Disabling cuts the package out and records all that followed it. */
  lemma DisableAt(left: seq<Package>, package: Package, right: seq<Package>, records: seq<Saved>)
    requires package !in left && Find(records, package).None?
    ensures Disable(Manifest(left + [package] + right, records), package)
      == Manifest(left + right, records + [Saved(package, |left|, right)])
  {
    var s := left + [package] + right;
    IndexAt(left, package, right);
    assert s[..|left|] == left && s[|left| + 1..] == right;
  }

  /** Enabling puts the package where its record points. */
  lemma EnableAt(left: seq<Package>, package: Package, right: seq<Package>, records: seq<Saved>)
    requires package !in left + right && Find(records, package).Some?
    requires Place(Find(records, package).value, left + right) == |left|
    ensures Enable(Manifest(left + right, records), package)
      == Manifest(left + [package] + right, Retain(records, package))
  {
    assert (left + right)[..|left|] == left && (left + right)[|left|..] == right;
  }

  /** The record made by disabling points back to the same place. */
  lemma PlaceIsBack(left: seq<Package>, package: Package, right: seq<Package>)
    requires right != [] ==> right[0] !in left
    ensures Place(Saved(package, |left|, right), left + right) == |left|
  {
    if right != [] {
      IndexAt(left, right[0], right[1..]);
      assert left + [right[0]] + right[1..] == left + right;
    }
  }

  lemma CutOut(left: seq<Package>, package: Package, right: seq<Package>)
    requires Distinct(left + [package] + right)
    ensures Distinct(left + right) && package !in left + right
    ensures forall x :: x in left + right ==> x in left + [package] + right
    ensures forall x :: x in right ==> x !in left
  {
    var s := left + [package] + right;
    assert s[|left|] == package;
    assert forall i :: 0 <= i < |left| ==> s[i] == left[i];
    assert forall i :: 0 <= i < |right| ==> s[|left| + 1 + i] == right[i];
    assert forall i :: 0 <= i < |left + right| ==> (left + right)[i] == if i < |left| then s[i] else s[i + 1];
  }

  lemma EnableUndoesDisable(m: Manifest, package: Package)
    requires WellFormed(m) && package in m.bundles
    ensures WellFormed(Disable(m, package))
    ensures Enable(Disable(m, package), package) == m
  {
    var i := IndexOf(m.bundles, package);
    var left, right := m.bundles[..i], m.bundles[i + 1..];
    var saved := Saved(package, i, right);
    assert m.bundles == left + [package] + right;
    CutOut(left, package, right);
    assert Find(m.records, package).None?;
    DisableAt(left, package, right, m.records);
    FindAppended(m.records, saved, package);
    PlaceIsBack(left, package, right);
    EnableAt(left, package, right, m.records + [saved]);
    RetainAppended(m.records, saved);
  }

  lemma {:induction false} RetainAppended(records: seq<Saved>, saved: Saved)
    requires forall r :: r in records ==> r.package != saved.package
    ensures Retain(records + [saved], saved.package) == records
  {
    if records == [] {
      assert records + [saved] == [saved];
    } else {
      assert (records + [saved])[1..] == records[1..] + [saved];
      RetainAppended(records[1..], saved);
    }
  }

  /** Well-nested changes restore the order and the records exactly. */
  lemma {:induction false} NestedChangesRestore(blocks: seq<Block>, m: Manifest)
    requires WellFormed(m) && Opens(blocks, m)
    ensures PlayAll(blocks, m) == m
    decreases blocks
  {
    if blocks != [] {
      var block := blocks[0];
      EnableUndoesDisable(m, block.package);
      NestedChangesRestore(block.inner, Disable(m, block.package));
      NestedChangesRestore(blocks[1..], m);
    }
  }
}
