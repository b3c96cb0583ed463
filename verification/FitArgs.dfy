/** Writing a fit plan into an argument list (`FitPlanner::apply_plan_to_args`, src/fit.rs). */
module FitArgs {
  import opened Prelude
  import opened ArgFlags
  import Decimal

  const CONTEXT_FLAGS: seq<string> := ["-c", "--ctx-size", "--context-size"]
  const NGL_FLAGS: seq<string> := ["-ngl", "--n-gpu-layers", "--gpu-layers"]
  const BATCH_FLAGS: seq<string> := ["-b", "--batch-size", "--batch"]
  const UBATCH_FLAGS: seq<string> := ["-ub", "--ubatch-size", "--ubatch"]
  const SPLIT_MODE_FLAGS: seq<string> := ["--split-mode"]
  const TENSOR_SPLIT_FLAGS: seq<string> := ["--tensor-split"]
  const CACHE_K_FLAGS: seq<string> := ["--cache-type-k"]
  const CACHE_V_FLAGS: seq<string> := ["--cache-type-v"]

  /** The flag families in the order a plan writes them. */
  const FAMILIES: seq<seq<string>> :=
    [CONTEXT_FLAGS, NGL_FLAGS, SPLIT_MODE_FLAGS, TENSOR_SPLIT_FLAGS, CACHE_K_FLAGS, CACHE_V_FLAGS,
     BATCH_FLAGS, UBATCH_FLAGS]

  const FLAGS: set<string> :=
    {"-c", "--ctx-size", "--context-size", "-ngl", "--n-gpu-layers", "--gpu-layers", "-b", "--batch-size", "--batch",
     "-ub", "--ubatch-size", "--ubatch", "--split-mode", "--tensor-split", "--cache-type-k", "--cache-type-v"}

  /** The part of a plan that reaches the command line; the tensor split is already formatted. */
  datatype Plan = Plan(
    contextSize: u32, ngl: u32, splitMode: Option<string>, tensorSplit: Option<string>,
    cacheTypeK: Option<string>, cacheTypeV: Option<string>, batchSize: Option<u32>, ubatchSize: Option<u32>)

  function PrintSize(size: Option<u32>): Option<string> {
    match size
    case Some(n) => Some(Decimal.Print(n))
    case None => None
  }

  /** The value the plan has for each family, if any. */
  function PlanValue(p: Plan, family: nat): Option<string>
    requires family < |FAMILIES|
  {
    match family
    case 0 => Some(Decimal.Print(p.contextSize))
    case 1 => Some(Decimal.Print(p.ngl))
    case 2 => p.splitMode
    case 3 => p.tensorSplit
    case 4 => p.cacheTypeK
    case 5 => p.cacheTypeV
    case 6 => PrintSize(p.batchSize)
    case _ => PrintSize(p.ubatchSize)
  }

  /** The settings for the first `n` families, in order; each is added under its first spelling. */
  function Settings(p: Plan, n: nat): seq<Setting>
    requires n <= |FAMILIES|
  {
    if n == 0 then []
    else
      match PlanValue(p, n - 1)
      case Some(value) => Settings(p, n - 1) + [Setting(FAMILIES[n - 1], FAMILIES[n - 1][0], value)]
      case None => Settings(p, n - 1)
  }

  /** None of the plan's strings is itself one of the flags. */
  ghost predicate PlainValues(p: Plan) {
    && (p.splitMode.Some? ==> p.splitMode.value !in FLAGS)
    && (p.tensorSplit.Some? ==> p.tensorSplit.value !in FLAGS)
    && (p.cacheTypeK.Some? ==> p.cacheTypeK.value !in FLAGS)
    && (p.cacheTypeV.Some? ==> p.cacheTypeV.value !in FLAGS)
  }

  // ----- The families are apart ----------------------------------------------

  /** Which family a flag belongs to. */
  function FamilyOf(flag: string): nat {
    if flag in CONTEXT_FLAGS then 0
    else if flag in NGL_FLAGS then 1
    else if flag in SPLIT_MODE_FLAGS then 2
    else if flag in TENSOR_SPLIT_FLAGS then 3
    else if flag in CACHE_K_FLAGS then 4
    else if flag in CACHE_V_FLAGS then 5
    else if flag in BATCH_FLAGS then 6
    else 7
  }

  lemma FamilyFlags(i: nat, flag: string)
    requires i < |FAMILIES| && flag in FAMILIES[i]
    ensures flag in FLAGS && FamilyOf(flag) == i
  {
  }

  lemma FlagsStartWithDash(flag: string)
    requires flag in FLAGS
    ensures flag != [] && flag[0] == '-'
  {
  }

  lemma NumeralIsNoFlag(n: nat)
    ensures Decimal.Print(n) !in FLAGS
  {
    var numeral := Decimal.Print(n);
    assert Decimal.IsDigit(numeral[0]);
    if numeral in FLAGS {
      FlagsStartWithDash(numeral);
    }
  }

  lemma PlanValuesArePlain(p: Plan, family: nat)
    requires PlainValues(p) && family < |FAMILIES| && PlanValue(p, family).Some?
    ensures PlanValue(p, family).value !in FLAGS
  {
    NumeralIsNoFlag(p.contextSize);
    NumeralIsNoFlag(p.ngl);
    if p.batchSize.Some? {
      NumeralIsNoFlag(p.batchSize.value);
    }
    if p.ubatchSize.Some? {
      NumeralIsNoFlag(p.ubatchSize.value);
    }
  }

  /** The families of the settings, in order. */
  ghost function FamiliesSet(p: Plan, n: nat): seq<nat>
    requires n <= |FAMILIES|
  {
    if n == 0 then []
    else FamiliesSet(p, n - 1) + if PlanValue(p, n - 1).Some? then [n - 1] else []
  }

  lemma FamilyIsFlags(i: nat)
    requires i < |FAMILIES|
    ensures FAMILIES[i] != [] && forall f <- FAMILIES[i] :: f in FLAGS && FamilyOf(f) == i
  {
    forall f <- FAMILIES[i]
      ensures f in FLAGS && FamilyOf(f) == i
    {
      FamilyFlags(i, f);
    }
  }

  lemma FamiliesApart(i: nat, j: nat)
    requires i < |FAMILIES| && j < |FAMILIES| && i != j
    ensures Apart(FAMILIES[i], FAMILIES[j])
  {
    FamilyIsFlags(i);
    FamilyIsFlags(j);
  }

  /** Settings are one per family that has a value, in family order. */
  lemma {:induction false} SettingsByFamily(p: Plan, n: nat)
    requires n <= |FAMILIES|
    ensures |FamiliesSet(p, n)| == |Settings(p, n)|
    ensures forall k :: 0 <= k < |FamiliesSet(p, n)| ==>
              var i := FamiliesSet(p, n)[k];
              && i < n && PlanValue(p, i).Some?
              && Settings(p, n)[k] == Setting(FAMILIES[i], FAMILIES[i][0], PlanValue(p, i).value)
    ensures forall j, k :: 0 <= j < k < |FamiliesSet(p, n)| ==> FamiliesSet(p, n)[j] < FamiliesSet(p, n)[k]
  {
    if n == 0 {
    } else {
      SettingsByFamily(p, n - 1);
    }
  }

  /** Every family that has a value has a setting. */
  lemma {:induction false} SettingFor(p: Plan, n: nat, i: nat) returns (k: nat)
    requires i < n <= |FAMILIES| && PlanValue(p, i).Some?
    ensures k < |Settings(p, n)| && Settings(p, n)[k] == Setting(FAMILIES[i], FAMILIES[i][0], PlanValue(p, i).value)
  {
    if i == n - 1 {
      k := |Settings(p, n - 1)|;
    } else {
      k := SettingFor(p, n - 1, i);
    }
  }

  lemma SettingsIndependent(p: Plan, n: nat)
    requires PlainValues(p) && n <= |FAMILIES|
    ensures Independent(Settings(p, n), FLAGS)
  {
    var settings, families := Settings(p, n), FamiliesSet(p, n);
    SettingsByFamily(p, n);
    forall k | 0 <= k < |settings|
      ensures ValidSetting(settings[k], FLAGS)
    {
      FamilyIsFlags(families[k]);
      PlanValuesArePlain(p, families[k]);
    }
    forall j, k | 0 <= j < |settings| && 0 <= k < |settings| && j != k
      ensures Apart(settings[j].group, settings[k].group)
    {
      FamiliesApart(families[j], families[k]);
    }
  }

  // ----- Applying a plan -----------------------------------------------------

  function ContextSetting(p: Plan): Setting {
    Setting(CONTEXT_FLAGS, "-c", Decimal.Print(p.contextSize))
  }

  /** The list after the first `n` families, the context having been written unchecked. */
  function Applied(args: Args, p: Plan, n: nat): Args
    requires UncheckedIndex(args, CONTEXT_FLAGS, 0) != Some(|args|)
    requires 1 <= n <= |FAMILIES|
  {
    if n == 1 then PutUnchecked(args, ContextSetting(p))
    else
      match PlanValue(p, n - 1)
      case Some(value) => Put(Applied(args, p, n - 1), Setting(FAMILIES[n - 1], FAMILIES[n - 1][0], value))
      case None => Applied(args, p, n - 1)
  }

  /** Writes one family if the plan has a value for it. */
  method WriteFamily(args: Args, group: seq<string>, canonical: string, value: Option<string>) returns (updated: Args)
    ensures updated == if value.Some? then Put(args, Setting(group, canonical, value.value)) else args
  {
    updated := args;
    if value.Some? {
      updated := WithValue(updated, Setting(group, canonical, value.value));
    }
  }

  /** `None` is the panic of the unchecked context index. */
  method ApplyPlanToArgs(base: Args, p: Plan) returns (r: Option<Args>)
    ensures r.None? <==> UncheckedIndex(base, CONTEXT_FLAGS, 0) == Some(|base|)
    ensures r.Some? ==> r.value == Applied(base, p, |FAMILIES|)
  {
    var withContext := WithContextValue(base, ContextSetting(p));
    if withContext.None? {
      return None;
    }
    var args := withContext.value;
    assert args == Applied(base, p, 1);
    args := WriteFamily(args, NGL_FLAGS, "-ngl", Some(Decimal.Print(p.ngl)));
    assert args == Applied(base, p, 2);
    args := WriteFamily(args, SPLIT_MODE_FLAGS, "--split-mode", p.splitMode);
    assert args == Applied(base, p, 3);
    args := WriteFamily(args, TENSOR_SPLIT_FLAGS, "--tensor-split", p.tensorSplit);
    assert args == Applied(base, p, 4);
    args := WriteFamily(args, CACHE_K_FLAGS, "--cache-type-k", p.cacheTypeK);
    assert args == Applied(base, p, 5);
    args := WriteFamily(args, CACHE_V_FLAGS, "--cache-type-v", p.cacheTypeV);
    assert args == Applied(base, p, 6);
    args := WriteFamily(args, BATCH_FLAGS, "-b", PrintSize(p.batchSize));
    assert args == Applied(base, p, 7);
    args := WriteFamily(args, UBATCH_FLAGS, "-ub", PrintSize(p.ubatchSize));
    assert args == Applied(base, p, 8);
    return Some(args);
  }

  /** On a well-formed list a plan never panics, and applying it is writing its settings one by one. */
  lemma AppliedIsPutAll(args: Args, p: Plan, n: nat)
    requires WellFormed(args, FLAGS) && 1 <= n <= |FAMILIES|
    ensures UncheckedIndex(args, CONTEXT_FLAGS, 0) != Some(|args|)
    ensures Applied(args, p, n) == PutAll(args, Settings(p, n))
  {
    FamilyIsFlags(0);
    UncheckedIsSafe(args, CONTEXT_FLAGS, FLAGS, 0);
    AppliedFrom(args, p, n);
  }

  lemma AppliedFirst(args: Args, p: Plan)
    requires UncheckedIndex(args, CONTEXT_FLAGS, 0) == ValueIndex(args, CONTEXT_FLAGS, 0)
    ensures Applied(args, p, 1) == PutAll(args, Settings(p, 1))
  {
    PutUncheckedIsPut(args, ContextSetting(p));
    PutAllSnoc(args, [], ContextSetting(p));
    assert Settings(p, 1) == Settings(p, 0) + [ContextSetting(p)];
  }

  lemma AppliedNext(args: Args, p: Plan, n: nat)
    requires UncheckedIndex(args, CONTEXT_FLAGS, 0) != Some(|args|) && 1 < n <= |FAMILIES|
    requires Applied(args, p, n - 1) == PutAll(args, Settings(p, n - 1))
    ensures Applied(args, p, n) == PutAll(args, Settings(p, n))
  {
    var value := PlanValue(p, n - 1);
    if value.Some? {
      PutAllSnoc(args, Settings(p, n - 1), Setting(FAMILIES[n - 1], FAMILIES[n - 1][0], value.value));
    }
  }

  lemma {:induction false} AppliedFrom(args: Args, p: Plan, n: nat)
    requires UncheckedIndex(args, CONTEXT_FLAGS, 0) == ValueIndex(args, CONTEXT_FLAGS, 0)
    requires 1 <= n <= |FAMILIES|
    ensures Applied(args, p, n) == PutAll(args, Settings(p, n))
  {
    if n == 1 {
      AppliedFirst(args, p);
    } else {
      AppliedFrom(args, p, n - 1);
      AppliedNext(args, p, n);
    }
  }

  /** What the family's reader gives for the text the plan has for it. */
  function ReadSetting(args: Args, family: nat): Option<string>
    requires family < |FAMILIES|
  {
    Lookup(args, FAMILIES[family])
  }

  /** Position `i` is the value slot of a family the plan has a value for: the one after its first flag. */
  ghost predicate SetByPlan(args: Args, p: Plan, i: nat) {
    exists f: nat :: f < |FAMILIES| && PlanValue(p, f).Some? && ValueIndex(args, FAMILIES[f], 0) == Some(i)
  }

  /** Such a position follows a flag of that family. */
  lemma SetByPlanFollowsFlag(args: Args, p: Plan, i: nat)
    requires SetByPlan(args, p, i)
    ensures 0 < i < |args|
    ensures exists f: nat :: f < |FAMILIES| && PlanValue(p, f).Some? && args[i - 1] in FAMILIES[f]
  {
    var f: nat :| f < |FAMILIES| && PlanValue(p, f).Some? && ValueIndex(args, FAMILIES[f], 0) == Some(i);
    ValueIndexIsFirst(args, FAMILIES[f], 0);
  }

  lemma PlanTouches(args: Args, p: Plan)
    requires WellFormed(args, FLAGS) && PlainValues(p)
    ensures var r := PutAll(args, Settings(p, |FAMILIES|));
            && |r| >= |args| && r[|args|..] == Appended(args, Settings(p, |FAMILIES|))
            && forall i :: 0 <= i < |args| && r[i] != args[i] ==> SetByPlan(args, p, i)
  {
    var settings, families := Settings(p, |FAMILIES|), FamiliesSet(p, |FAMILIES|);
    SettingsIndependent(p, |FAMILIES|);
    SettingsByFamily(p, |FAMILIES|);
    PutAllAppends(args, settings, FLAGS);
    PutAllTouchesValues(args, settings, FLAGS);
    forall i | 0 <= i < |args| && PutAll(args, settings)[i] != args[i]
      ensures SetByPlan(args, p, i)
    {
      assert IsSlot(args, settings, i);
      var k :| 0 <= k < |settings| && ValueIndex(args, settings[k].group, 0) == Some(i);
      assert settings[k].group == FAMILIES[families[k]] && PlanValue(p, families[k]).Some?;
    }
  }

  /**
    Applying a plan to a well-formed list is a lens: every family reads back as the plan's
    value where the plan has one and as before where it has none, well-formedness is kept,
    only the value slots of the plan's families change, what is added is a flag and a value
    for each of the plan's families that had no slot, and applying twice is applying once.
   */
  lemma PlanIsLens(args: Args, p: Plan)
    requires WellFormed(args, FLAGS) && PlainValues(p)
    ensures UncheckedIndex(args, CONTEXT_FLAGS, 0) != Some(|args|)
    ensures var r := Applied(args, p, |FAMILIES|);
            && WellFormed(r, FLAGS)
            && (forall i: nat :: i < |FAMILIES| ==>
                  ReadSetting(r, i) == if PlanValue(p, i).Some? then PlanValue(p, i) else ReadSetting(args, i))
            && |r| >= |args|
            && (forall i :: 0 <= i < |args| && r[i] != args[i] ==> SetByPlan(args, p, i))
            && r[|args|..] == Appended(args, Settings(p, |FAMILIES|))
            && UncheckedIndex(r, CONTEXT_FLAGS, 0) != Some(|r|)
            && Applied(r, p, |FAMILIES|) == r
  {
    var settings := Settings(p, |FAMILIES|);
    var r := PutAll(args, settings);
    AppliedIsPutAll(args, p, |FAMILIES|);
    SettingsIndependent(p, |FAMILIES|);
    PutAllKeepsWellFormed(args, settings, FLAGS);
    AppliedIsPutAll(r, p, |FAMILIES|);
    PutAllIdempotent(args, settings, FLAGS);
    PlanTouches(args, p);
    forall i: nat | i < |FAMILIES|
      ensures ReadSetting(r, i) == if PlanValue(p, i).Some? then PlanValue(p, i) else ReadSetting(args, i)
    {
      FamilyReads(args, p, i);
    }
  }

  lemma FamilyReads(args: Args, p: Plan, i: nat)
    requires WellFormed(args, FLAGS) && PlainValues(p) && i < |FAMILIES|
    ensures ReadSetting(PutAll(args, Settings(p, |FAMILIES|)), i)
            == if PlanValue(p, i).Some? then PlanValue(p, i) else ReadSetting(args, i)
  {
    var settings := Settings(p, |FAMILIES|);
    SettingsIndependent(p, |FAMILIES|);
    if PlanValue(p, i).Some? {
      var k := SettingFor(p, |FAMILIES|, i);
      PutAllGet(args, settings, k, FLAGS);
    } else {
      SettingsByFamily(p, |FAMILIES|);
      FamilyIsFlags(i);
      forall k | 0 <= k < |settings|
        ensures Apart(FAMILIES[i], settings[k].group)
      {
        FamiliesApart(i, FamiliesSet(p, |FAMILIES|)[k]);
      }
      PutAllElsewhere(args, settings, FAMILIES[i], FLAGS);
    }
  }

  /** Every flag family, spelled out, has the part of the plan it is for. */
  ghost predicate FlagsSay(r: Args, p: Plan) {
    && Lookup(r, ["-c", "--ctx-size", "--context-size"]) == Some(Decimal.Print(p.contextSize))
    && Lookup(r, ["-ngl", "--n-gpu-layers", "--gpu-layers"]) == Some(Decimal.Print(p.ngl))
    && (p.splitMode.Some? ==> Lookup(r, ["--split-mode"]) == p.splitMode)
    && (p.tensorSplit.Some? ==> Lookup(r, ["--tensor-split"]) == p.tensorSplit)
    && (p.cacheTypeK.Some? ==> Lookup(r, ["--cache-type-k"]) == p.cacheTypeK)
    && (p.cacheTypeV.Some? ==> Lookup(r, ["--cache-type-v"]) == p.cacheTypeV)
    && (p.batchSize.Some? ==>
          Lookup(r, ["-b", "--batch-size", "--batch"]) == Some(Decimal.Print(p.batchSize.value)))
    && (p.ubatchSize.Some? ==>
          Lookup(r, ["-ub", "--ubatch-size", "--ubatch"]) == Some(Decimal.Print(p.ubatchSize.value)))
  }

  lemma FamiliesAreFlags(r: Args, p: Plan)
    requires forall k: nat :: k < |FAMILIES| && PlanValue(p, k).Some? ==> ReadSetting(r, k) == PlanValue(p, k)
    ensures FlagsSay(r, p)
  {
    assert ReadSetting(r, 0) == PlanValue(p, 0) && ReadSetting(r, 1) == PlanValue(p, 1);
    assert p.splitMode.Some? ==> ReadSetting(r, 2) == PlanValue(p, 2);
    assert p.tensorSplit.Some? ==> ReadSetting(r, 3) == PlanValue(p, 3);
    assert p.cacheTypeK.Some? ==> ReadSetting(r, 4) == PlanValue(p, 4);
    assert p.cacheTypeV.Some? ==> ReadSetting(r, 5) == PlanValue(p, 5);
    assert p.batchSize.Some? ==> ReadSetting(r, 6) == PlanValue(p, 6);
    assert p.ubatchSize.Some? ==> ReadSetting(r, 7) == PlanValue(p, 7);
  }

  /** After a plan is written, each flag reads back its own part. */
  lemma PlanInFlags(args: Args, p: Plan)
    requires WellFormed(args, FLAGS) && PlainValues(p)
    ensures UncheckedIndex(args, CONTEXT_FLAGS, 0) != Some(|args|)
    ensures FlagsSay(Applied(args, p, |FAMILIES|), p)
  {
    PlanIsLens(args, p);
    FamiliesAreFlags(Applied(args, p, |FAMILIES|), p);
  }

  /** A flag with its value, if there is one. */
  function FlagValue(flag: string, value: Option<string>): Args {
    if value.Some? then [flag, value.value] else []
  }

  /** The arguments of a plan alone, in the order they are written. */
  function PlanAlone(p: Plan): Args {
    ["-c", Decimal.Print(p.contextSize), "-ngl", Decimal.Print(p.ngl)]
    + FlagValue("--split-mode", p.splitMode) + FlagValue("--tensor-split", p.tensorSplit)
    + FlagValue("--cache-type-k", p.cacheTypeK) + FlagValue("--cache-type-v", p.cacheTypeV)
    + FlagValue("-b", PrintSize(p.batchSize)) + FlagValue("-ub", PrintSize(p.ubatchSize))
  }

  lemma AppendedToNothing(p: Plan, n: nat)
    requires 0 < n <= |FAMILIES|
    ensures Appended([], Settings(p, n))
            == Appended([], Settings(p, n - 1)) + FlagValue(FAMILIES[n - 1][0], PlanValue(p, n - 1))
  {
    var value := PlanValue(p, n - 1);
    if value.Some? {
      var settings := Settings(p, n - 1);
      var last := Setting(FAMILIES[n - 1], FAMILIES[n - 1][0], value.value);
      assert (settings + [last])[..|settings|] == settings;
    }
  }

  lemma Chained(a: seq<Args>, f: seq<Args>)
    requires |a| == 9 && |f| == 8 && a[0] == []
    requires a[1] == a[0] + f[0] && a[2] == a[1] + f[1] && a[3] == a[2] + f[2] && a[4] == a[3] + f[3]
    requires a[5] == a[4] + f[4] && a[6] == a[5] + f[5] && a[7] == a[6] + f[6] && a[8] == a[7] + f[7]
    ensures a[8] == f[0] + f[1] + f[2] + f[3] + f[4] + f[5] + f[6] + f[7]
  {
    assert a[1] == f[0];
  }

  lemma AppendedAlone(p: Plan)
    ensures Appended([], Settings(p, |FAMILIES|)) == PlanAlone(p)
  {
    var a := seq(9, n requires 0 <= n < 9 => Appended([], Settings(p, n)));
    var f := seq(8, n requires 0 <= n < 8 => FlagValue(FAMILIES[n][0], PlanValue(p, n)));
    forall n: nat | n < 8
      ensures a[n + 1] == a[n] + f[n]
    {
      AppendedToNothing(p, n + 1);
    }
    Chained(a, f);
    assert f[0] + f[1] == ["-c", Decimal.Print(p.contextSize), "-ngl", Decimal.Print(p.ngl)];
  }

  /** Written into no arguments at all, a plan gives each flag in its short spelling, in this order. */
  lemma PlanFromNothing(p: Plan)
    requires PlainValues(p)
    ensures UncheckedIndex([], CONTEXT_FLAGS, 0) == None && Applied([], p, |FAMILIES|) == PlanAlone(p)
  {
    PlanIsLens([], p);
    AppendedAlone(p);
  }

  lemma PrintedReadsBack(r: Args, group: seq<string>, n: u32)
    requires Lookup(r, group) == Some(Decimal.Print(n))
    ensures ReadU32(r, group) == Some(n) && ReadPositive(r, group) == if n == 0 then None else Some(n)
  {
    Decimal.ParseOfPrint(n, U32_LIMIT);
  }

  lemma PlanSizesReadBack(r: Args, p: Plan)
    requires forall k: nat :: k < |FAMILIES| && PlanValue(p, k).Some? ==> ReadSetting(r, k) == PlanValue(p, k)
    ensures ReadPositive(r, CONTEXT_FLAGS) == (if p.contextSize == 0 then None else Some(p.contextSize))
    ensures ReadU32(r, NGL_FLAGS) == Some(p.ngl)
    ensures p.batchSize.Some? && p.batchSize.value > 0 ==> ReadPositive(r, BATCH_FLAGS) == p.batchSize
    ensures p.ubatchSize.Some? && p.ubatchSize.value > 0 ==> ReadPositive(r, UBATCH_FLAGS) == p.ubatchSize
  {
    assert ReadSetting(r, 0) == PlanValue(p, 0) && ReadSetting(r, 1) == PlanValue(p, 1);
    assert p.batchSize.Some? ==> ReadSetting(r, 6) == PlanValue(p, 6);
    assert p.ubatchSize.Some? ==> ReadSetting(r, 7) == PlanValue(p, 7);
    PrintedReadsBack(r, CONTEXT_FLAGS, p.contextSize);
    PrintedReadsBack(r, NGL_FLAGS, p.ngl);
    if p.batchSize.Some? {
      PrintedReadsBack(r, BATCH_FLAGS, p.batchSize.value);
    }
    if p.ubatchSize.Some? {
      PrintedReadsBack(r, UBATCH_FLAGS, p.ubatchSize.value);
    }
  }

  /** The typed readers give the plan's numbers back; a size of zero reads as absent. */
  lemma PlanReadsBack(args: Args, p: Plan)
    requires WellFormed(args, FLAGS) && PlainValues(p)
    ensures UncheckedIndex(args, CONTEXT_FLAGS, 0) != Some(|args|)
    ensures var r := Applied(args, p, |FAMILIES|);
            && ReadPositive(r, CONTEXT_FLAGS) == (if p.contextSize == 0 then None else Some(p.contextSize))
            && ReadU32(r, NGL_FLAGS) == Some(p.ngl)
            && (p.batchSize.Some? && p.batchSize.value > 0 ==> ReadPositive(r, BATCH_FLAGS) == p.batchSize)
            && (p.ubatchSize.Some? && p.ubatchSize.value > 0 ==> ReadPositive(r, UBATCH_FLAGS) == p.ubatchSize)
  {
    PlanIsLens(args, p);
    PlanSizesReadBack(Applied(args, p, |FAMILIES|), p);
  }
}
