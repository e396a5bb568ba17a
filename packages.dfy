/**
 * The package catalog lookup `from_package` and its three wrappers
 * `mem_from_package`, `swap_from_package` and `storage_from_package`
 * (vmscripts/lib/virtual_machine.rb:363-402).
 */
module Packages {
  import opened Strings
  import opened Host

  /** The three locals `mem, swap, storage` after the scan. */
  datatype Sizes = Sizes(mem: Option<int>, swap: Option<int>, storage: Option<int>)

  const NoSizes := Sizes(None, None, None)

  /** What the scan leaves in its locals: the sizes of the LAST entry named `name`. */
  function Scanned(pkgs: seq<PackageDef>, name: string): Sizes
    decreases |pkgs|
  {
    if |pkgs| == 0 then NoSizes
    else if pkgs[|pkgs| - 1].name == name then
      var p := pkgs[|pkgs| - 1];
      Sizes(p.mem, p.swap, p.storage)
    else Scanned(pkgs[..|pkgs| - 1], name)
  }

  function Pick(s: Sizes, a: Attr): Option<int>
  {
    match a
    case Mem => s.mem
    case Swap => s.swap
    case Storage => s.storage
  }

  /** The attribute `from_package` returns, or the "No attribute" error it raises. */
  function PackageAttribute(pkgs: seq<PackageDef>, name: string, a: Attr): Result<int>
  {
    match Pick(Scanned(pkgs, name), a)
    case None => Err(NoAttribute(a, name))
    case Some(v) => Ok(v)
  }

  /**
   * `from_package`: scans EVERY catalog entry (the loop never stops early),
   * overwriting the three locals at each entry whose name matches, then
   * returns the requested one or raises when it is nil.  With `a` fixed to
   * Mem, Swap or Storage this is `mem_from_package`, `swap_from_package`
   * and `storage_from_package`.
   */
  method FromPackage(pkgs: seq<PackageDef>, name: string, a: Attr) returns (r: Result<int>)
    ensures r == PackageAttribute(pkgs, name, a)
  {
    var mem, swap, storage := None, None, None;
    var i := 0;
    while i < |pkgs|
      invariant 0 <= i <= |pkgs|
      invariant Sizes(mem, swap, storage) == Scanned(pkgs[..i], name)
    {
      assert pkgs[..i + 1][..i] == pkgs[..i];
      if pkgs[i].name == name {
        mem, swap, storage := pkgs[i].mem, pkgs[i].swap, pkgs[i].storage;
      }
      i := i + 1;
    }
    assert pkgs[..i] == pkgs;
    var result := match a case Mem => mem case Swap => swap case Storage => storage;
    if result.None? {
      r := Err(NoAttribute(a, name));
    } else {
      r := Ok(result.value);
    }
  }

  function AttrOf(p: PackageDef, a: Attr): Option<int>
  {
    match a
    case Mem => p.mem
    case Swap => p.swap
    case Storage => p.storage
  }

  /**
   * The last entry named `name` decides: its attribute is returned when set,
   * and "No attribute" is raised when it is nil, whatever earlier entries of
   * the same name hold.
   */
  lemma {:induction false} LastEntryDecides(pkgs: seq<PackageDef>, name: string, a: Attr, k: nat)
    requires k < |pkgs| && pkgs[k].name == name
    requires forall j :: k < j < |pkgs| ==> pkgs[j].name != name
    ensures PackageAttribute(pkgs, name, a)
         == if AttrOf(pkgs[k], a).Some? then Ok(AttrOf(pkgs[k], a).value) else Err(NoAttribute(a, name))
  {
    ScannedLast(pkgs, name, k);
  }

  lemma {:induction false} ScannedLast(pkgs: seq<PackageDef>, name: string, k: nat)
    requires k < |pkgs| && pkgs[k].name == name
    requires forall j :: k < j < |pkgs| ==> pkgs[j].name != name
    ensures Scanned(pkgs, name) == Sizes(pkgs[k].mem, pkgs[k].swap, pkgs[k].storage)
    decreases |pkgs|
  {
    if k < |pkgs| - 1 {
      var init := pkgs[..|pkgs| - 1];
      assert forall j :: k < j < |init| ==> init[j] == pkgs[j];
      ScannedLast(init, name, k);
    }
  }

  /** A name no entry carries is reported as a missing attribute. */
  lemma {:induction false} UnknownPackage(pkgs: seq<PackageDef>, name: string, a: Attr)
    requires forall j :: 0 <= j < |pkgs| ==> pkgs[j].name != name
    ensures PackageAttribute(pkgs, name, a) == Err(NoAttribute(a, name))
  {
    ScannedNone(pkgs, name);
  }

  lemma {:induction false} ScannedNone(pkgs: seq<PackageDef>, name: string)
    requires forall j :: 0 <= j < |pkgs| ==> pkgs[j].name != name
    ensures Scanned(pkgs, name) == NoSizes
    decreases |pkgs|
  {
    if |pkgs| > 0 {
      ScannedNone(pkgs[..|pkgs| - 1], name);
    }
  }
}
