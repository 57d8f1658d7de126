/** Feature-flag gating of dashboard extensions
    (frontend/public/components/dashboards-page/utils.ts). */
module DashboardFlags {
  import opened Lodash

  /** The `required` property of a dashboard extension: one flag name or an
      array of them. */
  datatype Required = Single(flag: string) | Many(flags: seq<string>)

  /** A dashboard extension; only its `properties.required` matters here. */
  datatype DashboardExtension = DashboardExtension(required: Required)

  /** The feature-flag store. A flag absent from the map reads as
      `undefined`, which is falsy. Flag names are taken to be distinct from
      the properties every JavaScript object inherits (`constructor`,
      `toString`, ...), which would read as truthy. */
  type Flags = map<string, bool>

  predicate FlagOn(flags: Flags, f: string) {
    f in flags && flags[f]
  }

  /** `_.castArray`: a single flag becomes a one-element array, an array is
      kept as it is. */
  function CastArray(r: Required): seq<string> {
    match r
    case Single(f) => [f]
    case Many(fs) => fs
  }

  /** Some extension in `exts` requires flag `f`. */
  ghost predicate RequiredBySome(exts: seq<DashboardExtension>, f: string) {
    exists i :: 0 <= i < |exts| && f in CastArray(exts[i].required)
  }

  /** A flag is required by a non-empty list exactly when the list without
      its last extension requires it, or the last extension does. */
  lemma RequiredBySomeSnoc(exts: seq<DashboardExtension>)
    requires |exts| > 0
    ensures forall f :: RequiredBySome(exts, f) <==>
              RequiredBySome(exts[..|exts| - 1], f) || f in CastArray(exts[|exts| - 1].required)
  {
    assert exts == exts[..|exts| - 1] + [exts[|exts| - 1]];
  }

  /** `getFlagsForExtensions`: a left fold that appends each extension's
      required flags to the accumulator and de-duplicates with `_.uniq`. */
  function FlagsForExtensions(exts: seq<DashboardExtension>): (r: seq<string>)
    ensures NoDuplicates(r)
    ensures forall f :: f in r <==> RequiredBySome(exts, f)
    decreases |exts|
  {
    if |exts| == 0 then []
    else
      var init := exts[..|exts| - 1];
      var acc := FlagsForExtensions(init);
      var last := CastArray(exts[|exts| - 1].required);
      RequiredBySomeSnoc(exts);
      Uniq(acc + last)
  }

  /** Every required flag of every extension, concatenated in order. */
  function AllRequired(exts: seq<DashboardExtension>): (r: seq<string>)
    ensures forall f :: f in r <==> RequiredBySome(exts, f)
    decreases |exts|
  {
    if |exts| == 0 then []
    else
      var init := exts[..|exts| - 1];
      var last := CastArray(exts[|exts| - 1].required);
      RequiredBySomeSnoc(exts);
      AllRequired(init) + last
  }

  /** No flags are collected exactly when no extension requires any flag;
      in particular an empty extension list yields no flags. */
  lemma NoFlagsIffNothingRequired(exts: seq<DashboardExtension>)
    ensures FlagsForExtensions(exts) == [] <==>
            forall i :: 0 <= i < |exts| ==> CastArray(exts[i].required) == []
    ensures FlagsForExtensions([]) == []
  {
    var r := FlagsForExtensions(exts);
    if r != [] {
      assert r[0] in r;
      var i :| 0 <= i < |exts| && r[0] in CastArray(exts[i].required);
    }
    if exists i :: 0 <= i < |exts| && CastArray(exts[i].required) != [] {
      var i :| 0 <= i < |exts| && CastArray(exts[i].required) != [];
      var f := CastArray(exts[i].required)[0];
      assert RequiredBySome(exts, f);
      assert f in r;
    }
  }

  /** The fold equals one `_.uniq` over all required flags: the result holds
      the flags in the order in which they are first required. */
  lemma {:induction false} FlagsAreUniqOfAllRequired(exts: seq<DashboardExtension>)
    ensures FlagsForExtensions(exts) == Uniq(AllRequired(exts))
    decreases |exts|
  {
    if |exts| > 0 {
      var init := exts[..|exts| - 1];
      var last := CastArray(exts[|exts| - 1].required);
      FlagsAreUniqOfAllRequired(init);
      UniqAppend(AllRequired(init), last);
    }
  }

  /** Flags appear in the order of their first occurrence across the
      extensions' required lists. */
  lemma FlagsInFirstRequiredOrder(exts: seq<DashboardExtension>)
    ensures forall i, j :: 0 <= i < j < |FlagsForExtensions(exts)| ==>
              FirstIndex(AllRequired(exts), FlagsForExtensions(exts)[i])
              < FirstIndex(AllRequired(exts), FlagsForExtensions(exts)[j])
  {
    FlagsAreUniqOfAllRequired(exts);
    UniqFirstOccurrenceOrder(AllRequired(exts));
  }

  /** `_.every` over a flag list, evaluated left to right. */
  function Every(fs: seq<string>, flags: Flags): bool
    decreases |fs|
  {
    if |fs| == 0 then true
    else FlagOn(flags, fs[0]) && Every(fs[1..], flags)
  }

  lemma {:induction false} EveryMeansAllOn(fs: seq<string>, flags: Flags)
    ensures Every(fs, flags) <==> forall f :: f in fs ==> FlagOn(flags, f)
    decreases |fs|
  {
    if |fs| > 0 {
      EveryMeansAllOn(fs[1..], flags);
      assert fs == [fs[0]] + fs[1..];
    }
  }

  /** `isDashboardExtensionInUse`. */
  function IsDashboardExtensionInUse(e: DashboardExtension, flags: Flags): bool {
    Every(CastArray(e.required), flags)
  }

  /** An extension is in use exactly when every flag it requires is on; an
      empty required array therefore puts it in use. */
  lemma InUseIffAllRequiredOn(e: DashboardExtension, flags: Flags)
    ensures IsDashboardExtensionInUse(e, flags) <==>
            forall f :: f in CastArray(e.required) ==> FlagOn(flags, f)
    ensures e.required == Many([]) ==> IsDashboardExtensionInUse(e, flags)
  {
    EveryMeansAllOn(CastArray(e.required), flags);
  }

  /** `flags2` turns on at least the flags `flags1` turns on. */
  ghost predicate TurnsOnAtLeast(flags1: Flags, flags2: Flags) {
    forall f :: FlagOn(flags1, f) ==> FlagOn(flags2, f)
  }

  /** Turning more flags on never takes an extension out of use. */
  lemma InUseMonotone(e: DashboardExtension, flags1: Flags, flags2: Flags)
    requires IsDashboardExtensionInUse(e, flags1)
    requires TurnsOnAtLeast(flags1, flags2)
    ensures IsDashboardExtensionInUse(e, flags2)
  {
    InUseIffAllRequiredOn(e, flags1);
    InUseIffAllRequiredOn(e, flags2);
  }

  /** The two functions agree: every extension is in use exactly when every
      flag of `getFlagsForExtensions` is on. */
  lemma AllInUseIffCollectedFlagsOn(exts: seq<DashboardExtension>, flags: Flags)
    ensures (forall i :: 0 <= i < |exts| ==> IsDashboardExtensionInUse(exts[i], flags)) <==>
            (forall f :: f in FlagsForExtensions(exts) ==> FlagOn(flags, f))
  {
    forall i | 0 <= i < |exts| {
      InUseIffAllRequiredOn(exts[i], flags);
    }
    if forall f :: f in FlagsForExtensions(exts) ==> FlagOn(flags, f) {
      forall i | 0 <= i < |exts|
        ensures IsDashboardExtensionInUse(exts[i], flags)
      {
        forall f | f in CastArray(exts[i].required) ensures FlagOn(flags, f) {
          assert RequiredBySome(exts, f);
        }
      }
    }
  }

  /** Both functions see an extension only through `_.castArray` of its
      `required` property. */
  lemma {:induction false} FlagsDependOnCastArrayOnly(exts1: seq<DashboardExtension>, exts2: seq<DashboardExtension>)
    requires |exts1| == |exts2|
    requires forall i :: 0 <= i < |exts1| ==> CastArray(exts1[i].required) == CastArray(exts2[i].required)
    ensures FlagsForExtensions(exts1) == FlagsForExtensions(exts2)
    decreases |exts1|
  {
    if |exts1| > 0 {
      FlagsDependOnCastArrayOnly(exts1[..|exts1| - 1], exts2[..|exts2| - 1]);
    }
  }

  /** A `required` given as a single string behaves exactly like the
      one-element array holding it, in both functions. */
  lemma SingleFlagActsAsArray(exts: seq<DashboardExtension>, k: nat, f: string, flags: Flags)
    requires k < |exts| && exts[k].required == Single(f)
    ensures FlagsForExtensions(exts[k := DashboardExtension(Many([f]))]) == FlagsForExtensions(exts)
    ensures IsDashboardExtensionInUse(DashboardExtension(Many([f])), flags) ==
            IsDashboardExtensionInUse(exts[k], flags)
  {
    FlagsDependOnCastArrayOnly(exts[k := DashboardExtension(Many([f]))], exts);
  }
}
