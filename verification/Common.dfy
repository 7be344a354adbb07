/** Definitions shared by the modules. */
module Common {
  datatype Option<+T> = None | Some(value: T)

  newtype byte = x: int | 0 <= x < 256

  /** A text stands in another at some place. */
  predicate HasAt(text: string, i: nat, pattern: string) {
    i + |pattern| <= |text| && text[i..i + |pattern|] == pattern
  }

  lemma {:induction false} Associate<T>(a: seq<T>, b: seq<T>, c: seq<T>)
    ensures a + (b + c) == (a + b) + c
  {
  }

  predicate Distinct(names: seq<string>) {
    forall i, j :: 0 <= i < j < |names| ==> names[i] != names[j]
  }

  lemma {:induction false} DistinctFront(names: seq<string>)
    requires Distinct(names) && |names| > 0
    ensures Distinct(names[..|names| - 1]) && names[|names| - 1] !in names[..|names| - 1]
    ensures names == names[..|names| - 1] + [names[|names| - 1]]
  {
  }

  /** The elements of a set in some order, each once: how a map is gone through. */
  predicate Enumerates(names: seq<string>, all: set<string>) {
    Distinct(names) && (set name | name in names) == all
  }

  lemma {:induction false} EnumeratesMore(names: seq<string>, all: set<string>, name: string)
    requires Enumerates(names, all) && name !in all
    ensures Enumerates(names + [name], all + {name})
  {
    assert forall n :: n in names <==> n in (set x | x in names);
    assert forall n :: n in names + [name] <==> n in names || n == name;
  }

  /** Every set can be gone through. */
  lemma {:induction false} SomeOrder(all: set<string>) returns (names: seq<string>)
    ensures Enumerates(names, all)
  {
    if all == {} {
      names := [];
    } else {
      var name :| name in all;
      var rest := SomeOrder(all - {name});
      EnumeratesMore(rest, all - {name}, name);
      assert all - {name} + {name} == all;
      names := rest + [name];
    }
  }

  /** Goes through a set. */
  method InSomeOrder(all: set<string>) returns (names: seq<string>)
    ensures Enumerates(names, all) && forall name :: name in names <==> name in all
  {
    names := [];
    var todo := all;
    while todo != {}
      invariant todo <= all && Enumerates(names, all - todo)
      decreases |todo|
    {
      var name :| name in todo;
      EnumeratesMore(names, all - todo, name);
      assert all - todo + {name} == all - (todo - {name});
      names, todo := names + [name], todo - {name};
    }
    assert all - todo == all;
    assert forall name :: name in names <==> name in (set x | x in names);
  }
}
