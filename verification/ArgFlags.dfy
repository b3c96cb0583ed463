/**
  Reading and rewriting flag values in llama-server argument lists
  (src/batch.rs, src/ngl.rs, src/context.rs, and `with_flag` of src/fit.rs).
 */
module ArgFlags {
  import opened Prelude
  import Decimal

  type Args = seq<string>

  // ----- The finders ---------------------------------------------------------

  /** Index of the value after the first flag of `group` that has something after it. */
  function ValueIndex(args: Args, group: seq<string>, from: nat): (r: Option<nat>)
    ensures r.Some? ==> from < r.value < |args|
    decreases |args| - from
  {
    if from + 1 >= |args| then None
    else if args[from] in group then Some(from + 1)
    else ValueIndex(args, group, from + 1)
  }

  /** As `context_value_index`: the position after the first flag, even if nothing stands there. */
  function UncheckedIndex(args: Args, group: seq<string>, from: nat): (r: Option<nat>)
    ensures r.Some? ==> from < r.value <= |args|
    decreases |args| - from
  {
    if from >= |args| then None
    else if args[from] in group then Some(from + 1)
    else UncheckedIndex(args, group, from + 1)
  }

  method FindValueIndex(args: Args, group: seq<string>) returns (r: Option<nat>)
    ensures r == ValueIndex(args, group, 0)
  {
    for i := 0 to |args|
      invariant ValueIndex(args, group, 0) == ValueIndex(args, group, i)
    {
      if args[i] in group && i + 1 < |args| {
        return Some(i + 1);
      }
    }
    return None;
  }

  method FindUncheckedIndex(args: Args, group: seq<string>) returns (r: Option<nat>)
    ensures r == UncheckedIndex(args, group, 0)
  {
    for i := 0 to |args|
      invariant UncheckedIndex(args, group, 0) == UncheckedIndex(args, group, i)
    {
      if args[i] in group {
        return Some(i + 1);
      }
    }
    return None;
  }

  // ----- Readers and writers -------------------------------------------------

  /** A flag family, the spelling used when it has to be added, and a value for it. */
  datatype Setting = Setting(group: seq<string>, canonical: string, value: string)

  function Lookup(args: Args, group: seq<string>): Option<string> {
    match ValueIndex(args, group, 0)
    case Some(i) => Some(args[i])
    case None => None
  }

  function Put(args: Args, s: Setting): Args {
    match ValueIndex(args, s.group, 0)
    case Some(i) => args[i := s.value]
    case None => args + [s.canonical, s.value]
  }

  /** `with_batch_size`, `with_ubatch_size`, `with_ngl`, `set_flag_value`, `with_flag`. */
  method WithValue(args: Args, s: Setting) returns (updated: Args)
    ensures updated == Put(args, s)
  {
    updated := args;
    var index := FindValueIndex(updated, s.group);
    if index.Some? {
      updated := updated[index.value := s.value];
      return;
    }
    updated := updated + [s.canonical];
    updated := updated + [s.value];
  }

  /** `with_context_size`; `None` is the out-of-bounds panic of its unchecked index. */
  method WithContextValue(args: Args, s: Setting) returns (r: Option<Args>)
    ensures r == if UncheckedIndex(args, s.group, 0) == Some(|args|) then None else Some(PutUnchecked(args, s))
  {
    var index := FindUncheckedIndex(args, s.group);
    if index.Some? {
      if index.value >= |args| {
        return None;
      }
      return Some(args[index.value := s.value]);
    }
    return Some(args + [s.canonical] + [s.value]);
  }

  function PutUnchecked(args: Args, s: Setting): Args
    requires UncheckedIndex(args, s.group, 0) != Some(|args|)
  {
    match UncheckedIndex(args, s.group, 0)
    case Some(i) => args[i := s.value]
    case None => args + [s.canonical] + [s.value]
  }

  /** `get_ngl`: any u32; the size readers also drop zero. */
  function ReadU32(args: Args, group: seq<string>): Option<u32> {
    match Lookup(args, group)
    case Some(text) => Decimal.Parse(text, U32_LIMIT)
    case None => None
  }

  function ReadPositive(args: Args, group: seq<string>): Option<u32> {
    if ReadU32(args, group) == Some(0) then None else ReadU32(args, group)
  }

  // ----- Well-formed lists ---------------------------------------------------

  /** Every flag is followed by a token that is not itself a flag. */
  predicate WellFormed(args: Args, flags: set<string>) {
    forall i :: 0 <= i < |args| && args[i] in flags ==> i + 1 < |args| && args[i + 1] !in flags
  }

  predicate ValidSetting(s: Setting, flags: set<string>) {
    s.canonical in s.group && (forall f <- s.group :: f in flags) && s.value !in flags
  }

  lemma {:induction false} ValueIndexIsFirst(args: Args, group: seq<string>, from: nat)
    ensures match ValueIndex(args, group, from)
            case Some(i) => args[i - 1] in group && forall j :: from <= j < i - 1 ==> args[j] !in group
            case None => forall j :: from <= j < |args| - 1 ==> args[j] !in group
    decreases |args| - from
  {
    if from + 1 < |args| && args[from] !in group {
      ValueIndexIsFirst(args, group, from + 1);
    }
  }

  lemma {:induction false} ValueIndexAt(args: Args, group: seq<string>, from: nat, i: nat)
    requires from < i < |args| && args[i - 1] in group
    requires forall j :: from <= j < i - 1 ==> args[j] !in group
    ensures ValueIndex(args, group, from) == Some(i)
    decreases i - from
  {
    if from < i - 1 {
      ValueIndexAt(args, group, from + 1, i);
    }
  }

  lemma {:induction false} NoValueIndex(args: Args, group: seq<string>, from: nat)
    requires forall j :: from <= j < |args| - 1 ==> args[j] !in group
    ensures ValueIndex(args, group, from) == None
    decreases |args| - from
  {
    if from + 1 < |args| {
      NoValueIndex(args, group, from + 1);
    }
  }

  // ----- Laws of one flag ----------------------------------------------------

  lemma PutInSlot(args: Args, s: Setting)
    requires ValueIndex(args, s.group, 0).Some?
    ensures Lookup(Put(args, s), s.group) == Some(s.value)
  {
    ValueIndexIsFirst(args, s.group, 0);
    ValueIndexAt(Put(args, s), s.group, 0, ValueIndex(args, s.group, 0).value);
  }

  /** With no value slot, the appended value is found, or its flag is, behind a dangling flag. */
  lemma AppendedSlot(args: Args, s: Setting)
    requires s.canonical in s.group && ValueIndex(args, s.group, 0).None?
    ensures var dangling := args != [] && args[|args| - 1] in s.group;
            ValueIndex(args + [s.canonical, s.value], s.group, 0) == Some(|args| + if dangling then 0 else 1)
  {
    ValueIndexIsFirst(args, s.group, 0);
    var put := args + [s.canonical, s.value];
    if args != [] && args[|args| - 1] in s.group {
      assert put[|args| - 1] in s.group;
      ValueIndexAt(put, s.group, 0, |args|);
    } else {
      assert put[|args|] in s.group;
      ValueIndexAt(put, s.group, 0, |args| + 1);
    }
  }

  /**
    What was written is read back exactly when a value slot existed, or the list does not
    end in a dangling flag of the family (or the value happens to be the canonical spelling).
   */
  lemma PutGet(args: Args, s: Setting)
    requires s.canonical in s.group
    ensures Lookup(Put(args, s), s.group) == Some(s.value)
            <==> (|| ValueIndex(args, s.group, 0).Some?
                  || args == [] || args[|args| - 1] !in s.group
                  || s.value == s.canonical)
  {
    if ValueIndex(args, s.group, 0).Some? {
      PutInSlot(args, s);
    } else {
      AppendedSlot(args, s);
    }
  }

  /** In a well-formed list a written value is always read back, and the list stays well-formed. */
  lemma PutKeepsWellFormed(args: Args, s: Setting, flags: set<string>)
    requires WellFormed(args, flags) && ValidSetting(s, flags)
    ensures WellFormed(Put(args, s), flags)
    ensures Lookup(Put(args, s), s.group) == Some(s.value)
  {
    ValueIndexIsFirst(args, s.group, 0);
    PutGet(args, s);
    if args != [] {
      assert args[|args| - 1] !in flags;
    }
  }

  /** Writing the value already there changes nothing. */
  lemma PutSame(args: Args, s: Setting)
    requires Lookup(args, s.group) == Some(s.value)
    ensures Put(args, s) == args
  {
  }

  /** Other families keep their values, in the same place. */
  lemma PutElsewhere(args: Args, s: Setting, group: seq<string>, flags: set<string>)
    requires WellFormed(args, flags) && ValidSetting(s, flags)
    requires (forall f <- group :: f in flags) && (forall f <- group :: f !in s.group)
    ensures ValueIndex(Put(args, s), group, 0) == ValueIndex(args, group, 0)
    ensures Lookup(Put(args, s), group) == Lookup(args, group)
  {
    ValueIndexIsFirst(args, s.group, 0);
    ValueIndexIsFirst(args, group, 0);
    var put := Put(args, s);
    var here, there := ValueIndex(args, s.group, 0), ValueIndex(args, group, 0);
    assert here.Some? ==> args[here.value] !in flags;
    if there.Some? {
      ValueIndexAt(put, group, 0, there.value);
    } else {
      if args != [] {
        assert args[|args| - 1] !in flags;
      }
      NoValueIndex(put, group, 0);
    }
  }

  /** The only token changed is the one after a flag of the family; what is added is the flag and its value. */
  lemma PutTouchesOneToken(args: Args, s: Setting)
    ensures |Put(args, s)| == |args| || Put(args, s)[|args|..] == [s.canonical, s.value]
    ensures |Put(args, s)| >= |args|
    ensures forall i :: 0 <= i < |args| && Put(args, s)[i] != args[i] ==> i > 0 && args[i - 1] in s.group
  {
    ValueIndexIsFirst(args, s.group, 0);
  }

  /** On a well-formed list the unchecked context index is always in range and finds the same slot. */
  lemma {:induction false} UncheckedIsSafe(args: Args, group: seq<string>, flags: set<string>, from: nat)
    requires WellFormed(args, flags) && (forall f <- group :: f in flags)
    ensures UncheckedIndex(args, group, from) == ValueIndex(args, group, from)
    decreases |args| - from
  {
    if from < |args| && args[from] !in group {
      UncheckedIsSafe(args, group, flags, from + 1);
    }
  }

  lemma PutUncheckedIsPut(args: Args, s: Setting)
    requires UncheckedIndex(args, s.group, 0) == ValueIndex(args, s.group, 0)
    ensures PutUnchecked(args, s) == Put(args, s)
  {
  }

  /** `with_context_size` panics exactly when the only context flag is the last token. */
  lemma ContextPanicsIff(args: Args, group: seq<string>)
    ensures UncheckedIndex(args, group, 0) == Some(|args|)
            <==> args != [] && args[|args| - 1] in group && forall j :: 0 <= j < |args| - 1 ==> args[j] !in group
  {
    UncheckedIndexIsFirst(args, group, 0);
  }

  lemma {:induction false} UncheckedIndexIsFirst(args: Args, group: seq<string>, from: nat)
    ensures match UncheckedIndex(args, group, from)
            case Some(i) => args[i - 1] in group && forall j :: from <= j < i - 1 ==> args[j] !in group
            case None => forall j :: from <= j < |args| ==> args[j] !in group
    decreases |args| - from
  {
    if from < |args| && args[from] !in group {
      UncheckedIndexIsFirst(args, group, from + 1);
    }
  }

  // ----- Laws of several flags -----------------------------------------------

  function PutAll(args: Args, settings: seq<Setting>): Args {
    if settings == [] then args else Put(PutAll(args, settings[..|settings| - 1]), settings[|settings| - 1])
  }

  lemma PutAllSnoc(args: Args, settings: seq<Setting>, s: Setting)
    ensures PutAll(args, settings + [s]) == Put(PutAll(args, settings), s)
  {
    assert (settings + [s])[..|settings|] == settings;
  }

  ghost predicate Apart(a: seq<string>, b: seq<string>) {
    forall f <- a :: f !in b
  }

  /** Valid settings of pairwise different families. */
  ghost predicate Independent(settings: seq<Setting>, flags: set<string>) {
    && (forall i :: 0 <= i < |settings| ==> ValidSetting(settings[i], flags))
    && forall i, j :: 0 <= i < |settings| && 0 <= j < |settings| && i != j ==>
         Apart(settings[i].group, settings[j].group)
  }

  lemma {:induction false} PutAllKeepsWellFormed(args: Args, settings: seq<Setting>, flags: set<string>)
    requires WellFormed(args, flags) && Independent(settings, flags)
    ensures WellFormed(PutAll(args, settings), flags)
  {
    if settings == [] {
    } else {
      var n := |settings| - 1;
      PutAllKeepsWellFormed(args, settings[..n], flags);
      PutKeepsWellFormed(PutAll(args, settings[..n]), settings[n], flags);
    }
  }

  /** Families that are not set keep their values, in the same place. */
  lemma {:induction false} PutAllElsewhere(args: Args, settings: seq<Setting>, group: seq<string>, flags: set<string>)
    requires WellFormed(args, flags) && Independent(settings, flags)
    requires forall f <- group :: f in flags
    requires forall i :: 0 <= i < |settings| ==> Apart(group, settings[i].group)
    ensures ValueIndex(PutAll(args, settings), group, 0) == ValueIndex(args, group, 0)
    ensures Lookup(PutAll(args, settings), group) == Lookup(args, group)
  {
    if settings == [] {
    } else {
      var n := |settings| - 1;
      PutAllKeepsWellFormed(args, settings[..n], flags);
      PutAllElsewhere(args, settings[..n], group, flags);
      PutElsewhere(PutAll(args, settings[..n]), settings[n], group, flags);
    }
  }

  /** Every family that is set reads back as set. */
  lemma {:induction false} PutAllGet(args: Args, settings: seq<Setting>, k: nat, flags: set<string>)
    requires WellFormed(args, flags) && Independent(settings, flags) && k < |settings|
    ensures Lookup(PutAll(args, settings), settings[k].group) == Some(settings[k].value)
  {
    var n := |settings| - 1;
    var before := PutAll(args, settings[..n]);
    PutAllKeepsWellFormed(args, settings[..n], flags);
    if k == n {
      PutKeepsWellFormed(before, settings[n], flags);
    } else {
      PutAllGet(args, settings[..n], k, flags);
      PutElsewhere(before, settings[n], settings[k].group, flags);
    }
  }

  lemma {:induction false} PutAllSame(args: Args, settings: seq<Setting>)
    requires forall k :: 0 <= k < |settings| ==> Lookup(args, settings[k].group) == Some(settings[k].value)
    ensures PutAll(args, settings) == args
  {
    if settings == [] {
    } else {
      PutAllSame(args, settings[..|settings| - 1]);
      PutSame(args, settings[|settings| - 1]);
    }
  }

  /** Applying the settings twice is applying them once. */
  lemma PutAllIdempotent(args: Args, settings: seq<Setting>, flags: set<string>)
    requires WellFormed(args, flags) && Independent(settings, flags)
    ensures PutAll(PutAll(args, settings), settings) == PutAll(args, settings)
  {
    forall k | 0 <= k < |settings|
      ensures Lookup(PutAll(args, settings), settings[k].group) == Some(settings[k].value)
    {
      PutAllGet(args, settings, k, flags);
    }
    PutAllSame(PutAll(args, settings), settings);
  }

  /** One more setting changes no token but the value slot of its family. */
  lemma PutWithin(args: Args, before: Args, s: Setting)
    requires |before| >= |args| && ValueIndex(before, s.group, 0) == ValueIndex(args, s.group, 0)
    ensures |Put(before, s)| >= |args|
    ensures forall i :: 0 <= i < |args| && Put(before, s)[i] != before[i] ==> ValueIndex(args, s.group, 0) == Some(i)
  {
  }

  /** Position `i` is the value slot of one of the settings. */
  ghost predicate IsSlot(args: Args, settings: seq<Setting>, i: nat) {
    exists k :: 0 <= k < |settings| && ValueIndex(args, settings[k].group, 0) == Some(i)
  }

  lemma IsSlotSnoc(args: Args, settings: seq<Setting>, i: nat)
    requires settings != []
    requires || IsSlot(args, settings[..|settings| - 1], i)
             || ValueIndex(args, settings[|settings| - 1].group, 0) == Some(i)
    ensures IsSlot(args, settings, i)
  {
    var init := settings[..|settings| - 1];
    if IsSlot(args, init, i) {
      var k :| 0 <= k < |init| && ValueIndex(args, init[k].group, 0) == Some(i);
      assert init[k] == settings[k];
    }
  }

  /** Only the value slots of the families being set change; all other tokens stay in place. */
  lemma {:induction false} PutAllTouchesValues(args: Args, settings: seq<Setting>, flags: set<string>)
    requires WellFormed(args, flags) && Independent(settings, flags)
    ensures |PutAll(args, settings)| >= |args|
    ensures forall i :: 0 <= i < |args| && PutAll(args, settings)[i] != args[i] ==> IsSlot(args, settings, i)
  {
    if settings == [] {
    } else {
      var n := |settings| - 1;
      var before := PutAll(args, settings[..n]);
      PutAllTouchesValues(args, settings[..n], flags);
      PutAllElsewhere(args, settings[..n], settings[n].group, flags);
      PutWithin(args, before, settings[n]);
      forall i | 0 <= i < |args| && PutAll(args, settings)[i] != args[i]
        ensures IsSlot(args, settings, i)
      {
        IsSlotSnoc(args, settings, i);
      }
    }
  }

  /** Flag and value of every setting whose family has no value yet, in order. */
  function Appended(args: Args, settings: seq<Setting>): Args {
    if settings == [] then []
    else
      var last := settings[|settings| - 1];
      Appended(args, settings[..|settings| - 1])
      + if ValueIndex(args, last.group, 0).None? then [last.canonical, last.value] else []
  }

  /** One more setting adds its flag and value behind the list, or overwrites within it. */
  lemma PutBehind(args: Args, before: Args, s: Setting)
    requires |before| >= |args| && ValueIndex(before, s.group, 0) == ValueIndex(args, s.group, 0)
    ensures |Put(before, s)| >= |args|
    ensures Put(before, s)[|args|..]
            == before[|args|..] + if ValueIndex(args, s.group, 0).None? then [s.canonical, s.value] else []
  {
    ValueIndexIsFirst(args, s.group, 0);
    if ValueIndex(args, s.group, 0).None? {
      assert (before + [s.canonical, s.value])[|args|..] == before[|args|..] + [s.canonical, s.value];
    } else {
      assert Put(before, s)[|args|..] == before[|args|..];
    }
  }

  /** What is added at the end is exactly that. */
  lemma {:induction false} PutAllAppends(args: Args, settings: seq<Setting>, flags: set<string>)
    requires WellFormed(args, flags) && Independent(settings, flags)
    ensures |PutAll(args, settings)| >= |args|
    ensures PutAll(args, settings)[|args|..] == Appended(args, settings)
  {
    if settings == [] {
      assert args[|args|..] == [];
    } else {
      var n := |settings| - 1;
      PutAllAppends(args, settings[..n], flags);
      PutAllElsewhere(args, settings[..n], settings[n].group, flags);
      PutBehind(args, PutAll(args, settings[..n]), settings[n]);
    }
  }
}
