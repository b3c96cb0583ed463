/** Fresh model aliases: `dedupe_alias` of src/config/models_cmd.rs and src/config/models_registry.rs. */
module ModelAliases {
  import opened Prelude
  import Decimal

  /** The `counter`-th name tried: the alias itself, then the suffixes from 2. */
  function Candidate(alias: string, counter: nat): string {
    alias + "-" + Decimal.Print(counter)
  }

  lemma CandidatesDiffer(alias: string, i: nat, j: nat)
    ensures Candidate(alias, i) != alias
    ensures Candidate(alias, i) == Candidate(alias, j) ==> i == j
  {
    assert Candidate(alias, i)[|alias| + 1..] == Decimal.Print(i);
    assert Candidate(alias, j)[|alias| + 1..] == Decimal.Print(j);
    assert |Candidate(alias, i)| > |alias|;
    if Candidate(alias, i) == Candidate(alias, j) {
      Decimal.PrintInjective(i, j);
    }
  }

  /** A candidate is the alias, a dash and the counter in decimal. */
  lemma CandidateSpells(alias: string, k: nat)
    ensures alias + "-" <= Candidate(alias, k)
    ensures Decimal.Parse(Candidate(alias, k)[|alias| + 1..], k + 1) == Some(k)
  {
    assert Candidate(alias, k)[|alias| + 1..] == Decimal.Print(k);
    Decimal.ParseOfPrint(k, k + 1);
  }

  /** The suffix `k` gives the first free name, all smaller ones from 2 being taken. */
  ghost predicate LeastSuffix(alias: string, used: set<string>, k: nat) {
    k >= 2 && Candidate(alias, k) !in used && forall j: nat :: 2 <= j < k ==> Candidate(alias, j) in used
  }

  /** The alias if it is free, else the name with the least suffix from 2 that is. */
  ghost predicate IsFreshAlias(alias: string, used: set<string>, r: string) {
    if alias !in used then r == alias else exists k: nat :: LeastSuffix(alias, used, k) && r == Candidate(alias, k)
  }

  lemma FreshAliasIsFree(alias: string, used: set<string>, r: string)
    requires IsFreshAlias(alias, used, r)
    ensures r !in used
  {
  }

  lemma FreshAliasUnique(alias: string, used: set<string>, a: string, b: string)
    requires IsFreshAlias(alias, used, a) && IsFreshAlias(alias, used, b)
    ensures a == b
  {
    if alias in used {
      var i: nat :| LeastSuffix(alias, used, i) && a == Candidate(alias, i);
      var j: nat :| LeastSuffix(alias, used, j) && b == Candidate(alias, j);
      assert i == j;
    }
  }

  ghost function Tried(alias: string, counter: nat): set<string> {
    if counter <= 2 then {} else Tried(alias, counter - 1) + {Candidate(alias, counter - 1)}
  }

  /** Neither the alias nor a later candidate has been tried as a suffixed name. */
  lemma {:induction false} NotTried(alias: string, counter: nat, k: nat)
    requires counter <= k
    ensures alias !in Tried(alias, counter) && Candidate(alias, k) !in Tried(alias, counter)
  {
    if counter <= 2 {
    } else {
      NotTried(alias, counter - 1, k);
      CandidatesDiffer(alias, counter - 1, k);
    }
  }

  lemma {:induction false} TriedSize(alias: string, counter: nat)
    requires counter >= 2
    ensures |Tried(alias, counter)| == counter - 2
  {
    if counter <= 2 {
    } else {
      TriedSize(alias, counter - 1);
      NotTried(alias, counter - 1, counter - 1);
    }
  }

  lemma {:induction false} TriedAreTaken(alias: string, used: set<string>, counter: nat)
    requires forall j: nat :: 2 <= j < counter ==> Candidate(alias, j) in used
    ensures Tried(alias, counter) <= used
  {
    if counter <= 2 {
    } else {
      TriedAreTaken(alias, used, counter - 1);
    }
  }

  lemma {:induction false} SubsetSize<T>(a: set<T>, b: set<T>)
    requires a <= b
    ensures |a| <= |b|
  {
    if a == {} {
    } else {
      var x :| x in a;
      SubsetSize(a - {x}, b - {x});
    }
  }

  /** Pigeonhole: the taken names, the alias and the suffixes below `counter`, are distinct members of `used`. */
  lemma TakenAreFew(alias: string, used: set<string>, counter: nat)
    requires counter >= 2 && alias in used
    requires forall j: nat :: 2 <= j < counter ==> Candidate(alias, j) in used
    ensures counter <= |used| + 1
  {
    TriedSize(alias, counter);
    NotTried(alias, counter, counter);
    TriedAreTaken(alias, used, counter);
    SubsetSize(Tried(alias, counter) + {alias}, used);
  }

  /** The fresh name, found after trying at most one more name than are used. */
  method DedupeAlias(alias: string, used: set<string>) returns (r: string, ghost tries: nat)
    ensures IsFreshAlias(alias, used, r) && r !in used
    ensures tries <= |used| + 1
  {
    if alias !in used {
      return alias, 1;
    }
    var counter := 2;
    tries := 2;
    TakenAreFew(alias, used, counter);
    while Candidate(alias, counter) in used
      invariant counter >= 2 && tries == counter
      invariant forall j: nat :: 2 <= j < counter ==> Candidate(alias, j) in used
      decreases |used| + 1 - counter
    {
      TakenAreFew(alias, used, counter + 1);
      counter := counter + 1;
      tries := tries + 1;
    }
    TakenAreFew(alias, used, counter);
    r := Candidate(alias, counter);
  }

  /** Naming a list of models in turn, each name taken from then on. */
  ghost predicate NamesInTurn(wanted: seq<string>, given: seq<string>) {
    |given| == |wanted| &&
    forall i :: 0 <= i < |wanted| ==> IsFreshAlias(wanted[i], Members(given[..i]), given[i])
  }

  function Members(names: seq<string>): set<string> {
    set name <- names
  }

  /** All names given are distinct, and a name wanted first is given as it is, unless it was given away as a suffix. */
  lemma NamesAreDistinct(wanted: seq<string>, given: seq<string>, i: nat, j: nat)
    requires NamesInTurn(wanted, given) && i < j < |given|
    ensures given[i] != given[j]
    ensures wanted[j] !in given[..j] ==> given[j] == wanted[j]
  {
    FreshAliasIsFree(wanted[j], Members(given[..j]), given[j]);
    assert given[..j][i] == given[i];
  }

  method AssignAliases(wanted: seq<string>) returns (given: seq<string>)
    ensures NamesInTurn(wanted, given)
  {
    given := [];
    var used: set<string> := {};
    for i := 0 to |wanted|
      invariant |given| == i && used == Members(given)
      invariant forall k :: 0 <= k < i ==> IsFreshAlias(wanted[k], Members(given[..k]), given[k])
    {
      var name, _ := DedupeAlias(wanted[i], used);
      ghost var before := given;
      assert before == before[..i];
      given := given + [name];
      used := used + {name};
      forall k | 0 <= k <= i
        ensures given[..k] == before[..k]
      {
      }
    }
  }
}
