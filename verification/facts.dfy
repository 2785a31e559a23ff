/** The solution dictionaries of runner.py and `facts_from_solution`, which
    writes a solution back out as ASP facts so that the next layer of the
    pipeline can read it. */
module Facts {
  import opened Common
  import opened Text

  /** A symbol argument: `arg.number` for numbers, `str(arg)` for anything else. */
  datatype Arg = Num(n: int) | Sym(text: string)

  /** What a solution stores per atom: `True` for an atom without arguments,
      the tuple of its arguments otherwise. */
  datatype Args = Nullary | Tuple(args: seq<Arg>)

  /** One shown atom of a model: its name and arguments. */
  type Symbol = (string, seq<Arg>)

  /** A solution dictionary: predicate names, in insertion order, each with
      the list of its atoms' arguments. */
  type Solution = seq<(string, seq<Args>)>

  // ---- Collecting a model (`solve`'s `on_model`) ---------------------------

  /** `args if args else True`: an atom without arguments is stored as `True`,
      never as an empty tuple. */
  function Stored(args: seq<Arg>): (a: Args)
    ensures a.Nullary? <==> |args| == 0
    ensures a.Tuple? ==> a.args == args
  {
    if |args| == 0 then Nullary else Tuple(args)
  }

  /** No predicate name is listed twice. */
  predicate DistinctNames(sol: Solution) {
    forall i, j :: 0 <= i < j < |sol| ==> sol[i].0 != sol[j].0
  }

  /** The position of `name` in the solution, or -1 when it is missing. */
  function IndexOf(sol: Solution, name: string): (i: int)
    ensures -1 <= i < |sol|
    ensures i >= 0 ==> sol[i].0 == name
    ensures i < 0 ==> forall j :: 0 <= j < |sol| ==> sol[j].0 != name
  {
    if |sol| == 0 then -1
    else if sol[|sol| - 1].0 == name then |sol| - 1
    else IndexOf(sol[..|sol| - 1], name)
  }

  /** `solution.get(name, [])`. */
  function AtomsNamed(sol: Solution, name: string): seq<Args> {
    var i := IndexOf(sol, name);
    if i >= 0 then sol[i].1 else []
  }

  /** `atoms[name].append(a)` on a `defaultdict(list)`: a new name goes to
      the end, a known one gets `a` at the end of its list. */
  function Record(sol: Solution, name: string, a: Args): (sol': Solution)
    requires DistinctNames(sol)
    ensures DistinctNames(sol')
    ensures AtomsNamed(sol', name) == AtomsNamed(sol, name) + [a]
    ensures forall other :: other != name ==> AtomsNamed(sol', other) == AtomsNamed(sol, other)
    ensures |sol'| == |sol| + (if IndexOf(sol, name) < 0 then 1 else 0)
    ensures forall j :: 0 <= j < |sol| ==> sol'[j].0 == sol[j].0
  {
    var i := IndexOf(sol, name);
    if i >= 0 then
      var sol' := sol[i := (name, sol[i].1 + [a])];
      assert forall other :: IndexOf(sol', other) == IndexOf(sol, other) by {
        forall other ensures IndexOf(sol', other) == IndexOf(sol, other) {
          SameNamesIndex(sol, sol', other);
        }
      }
      sol'
    else
      var sol' := sol + [(name, [a])];
      assert forall other :: other != name ==> IndexOf(sol', other) == IndexOf(sol, other) by {
        assert sol'[..|sol|] == sol;
      }
      sol'
  }

  /** Two solutions listing the same names in the same order find a name at
      the same place. */
  lemma {:induction false} SameNamesIndex(sol: Solution, sol': Solution, name: string)
    requires |sol'| == |sol| && forall j :: 0 <= j < |sol| ==> sol'[j].0 == sol[j].0
    ensures IndexOf(sol', name) == IndexOf(sol, name)
  {
    if |sol| > 0 && sol[|sol| - 1].0 != name {
      SameNamesIndex(sol[..|sol| - 1], sol'[..|sol| - 1], name);
    }
  }

  /** The solution `on_model` builds from the shown atoms, in model order:
      each predicate's list holds exactly its atoms, in model order, with
      `True` for the argument-less ones. */
  function Collect(syms: seq<Symbol>): (sol: Solution)
    ensures DistinctNames(sol)
    ensures forall name :: AtomsNamed(sol, name) == StoredNamed(syms, name)
  {
    if |syms| == 0 then []
    else
      var s := syms[|syms| - 1];
      Record(Collect(syms[..|syms| - 1]), s.0, Stored(s.1))
  }

  /** The stored arguments of the atoms named `name`, in model order. */
  function StoredNamed(syms: seq<Symbol>, name: string): seq<Args> {
    if |syms| == 0 then []
    else
      var s := syms[|syms| - 1];
      StoredNamed(syms[..|syms| - 1], name) + (if s.0 == name then [Stored(s.1)] else [])
  }

  /** `solve` never stores an empty tuple. */
  lemma {:induction false} CollectNoEmptyTuple(syms: seq<Symbol>, name: string, k: nat)
    requires k < |AtomsNamed(Collect(syms), name)|
    ensures AtomsNamed(Collect(syms), name)[k] != Tuple([])
  {
    StoredNeverEmpty(syms, name, k);
  }

  lemma {:induction false} StoredNeverEmpty(syms: seq<Symbol>, name: string, k: nat)
    requires k < |StoredNamed(syms, name)|
    ensures StoredNamed(syms, name)[k] != Tuple([])
  {
    var init := syms[..|syms| - 1];
    if k < |StoredNamed(init, name)| {
      StoredNeverEmpty(init, name, k);
    }
  }

  /** The number of atoms a solution holds. */
  function Size(sol: Solution): nat {
    if |sol| == 0 then 0 else Size(sol[..|sol| - 1]) + |sol[|sol| - 1].1|
  }

  /** Replacing one list changes the size by the difference in length. */
  lemma {:induction false} SizeUpdate(sol: Solution, i: nat, g: (string, seq<Args>))
    requires i < |sol|
    ensures Size(sol[i := g]) == Size(sol) - |sol[i].1| + |g.1|
  {
    var n := |sol| - 1;
    if i < n {
      assert sol[i := g][..n] == sol[..n][i := g];
      SizeUpdate(sol[..n], i, g);
    } else {
      assert sol[i := g][..n] == sol[..n];
    }
  }

  /** One stored atom per shown atom. */
  lemma {:induction false} CollectSize(syms: seq<Symbol>)
    ensures Size(Collect(syms)) == |syms|
  {
    if |syms| > 0 {
      var s := syms[|syms| - 1];
      var prev := Collect(syms[..|syms| - 1]);
      CollectSize(syms[..|syms| - 1]);
      var i := IndexOf(prev, s.0);
      if i >= 0 {
        SizeUpdate(prev, i, (s.0, prev[i].1 + [Stored(s.1)]));
      } else {
        assert (prev + [(s.0, [Stored(s.1)])])[..|prev|] == prev;
      }
    }
  }

  // ---- Writing facts (`facts_from_solution`) -------------------------------

  /** `str(a)`. */
  function ArgText(a: Arg): string {
    match a
    case Num(n) => IntToString(n)
    case Sym(t) => t
  }

  /** The arguments' texts, in order. */
  function ArgTexts(args: seq<Arg>): (ts: seq<string>)
    ensures |ts| == |args|
    ensures forall i :: 0 <= i < |args| ==> ts[i] == ArgText(args[i])
  {
    seq(|args|, i requires 0 <= i < |args| => ArgText(args[i]))
  }

  /** One fact: `name.` for an atom stored as `True`, `name(a1,a2,...).`
      with the arguments comma-joined and no spaces otherwise. */
  function Line(name: string, a: Args): string {
    match a
    case Nullary => name + "."
    case Tuple(args) => name + "(" + Join(ArgTexts(args), ',') + ")."
  }

  /** `not (predicates and name not in predicates)`: no list, or an empty
      one, lets every predicate through. */
  predicate Included(name: string, predicates: Option<seq<string>>) {
    predicates.None? || |predicates.value| == 0 || name in predicates.value
  }

  /** The facts of one predicate's list, in list order. */
  function GroupLines(name: string, atoms: seq<Args>): (ls: seq<string>)
    ensures |ls| == |atoms|
    ensures forall k :: 0 <= k < |atoms| ==> ls[k] == Line(name, atoms[k])
  {
    seq(|atoms|, k requires 0 <= k < |atoms| => Line(name, atoms[k]))
  }

  /** The `lines` list the loop builds. */
  function Lines(sol: Solution, predicates: Option<seq<string>>): seq<string> {
    if |sol| == 0 then []
    else
      var g := sol[|sol| - 1];
      Lines(sol[..|sol| - 1], predicates) + (if Included(g.0, predicates) then GroupLines(g.0, g.1) else [])
  }

  /** `facts_from_solution(solution, predicates)`: the lines joined by
      newlines, with no trailing newline. */
  function FactsFromSolution(sol: Solution, predicates: Option<seq<string>>): (text: string)
    ensures |Lines(sol, predicates)| == 0 ==> text == ""
    ensures |Lines(sol, predicates)| > 0 && (forall l :: l in Lines(sol, predicates) ==> NoSep(l, '\n')) ==>
              Split(text, '\n') == Lines(sol, predicates)
  {
    var ls := Lines(sol, predicates);
    assert |ls| > 0 && (forall l :: l in ls ==> NoSep(l, '\n')) ==> Split(Join(ls, '\n'), '\n') == ls by {
      if |ls| > 0 && (forall l :: l in ls ==> NoSep(l, '\n')) {
        SplitJoin(ls, '\n');
      }
    }
    Join(ls, '\n')
  }

  /** `line` writes atom `k` of group `i`, and that group's predicate is included. */
  predicate WritesAtom(sol: Solution, predicates: Option<seq<string>>, line: string, i: int, k: int) {
    0 <= i < |sol| && Included(sol[i].0, predicates) && 0 <= k < |sol[i].1| && line == Line(sol[i].0, sol[i].1[k])
  }

  /** A line is a fact of the solution exactly when it writes an atom of an
      included predicate. */
  lemma LinesMembers(sol: Solution, predicates: Option<seq<string>>, line: string)
    ensures line in Lines(sol, predicates) <==> exists i, k :: WritesAtom(sol, predicates, line, i, k)
  {
    if line in Lines(sol, predicates) {
      LinesSound(sol, predicates, line);
    }
    if exists i, k :: WritesAtom(sol, predicates, line, i, k) {
      var i, k :| WritesAtom(sol, predicates, line, i, k);
      LinesComplete(sol, predicates, line, i, k);
    }
  }

  lemma {:induction false} LinesSound(sol: Solution, predicates: Option<seq<string>>, line: string)
    requires line in Lines(sol, predicates)
    ensures exists i, k :: WritesAtom(sol, predicates, line, i, k)
  {
    var n := |sol| - 1;
    var init := sol[..n];
    var g := sol[n];
    if line in Lines(init, predicates) {
      LinesSound(init, predicates, line);
      var i, k :| WritesAtom(init, predicates, line, i, k);
      assert init[i] == sol[i];
      assert WritesAtom(sol, predicates, line, i, k);
    } else {
      var k :| 0 <= k < |g.1| && GroupLines(g.0, g.1)[k] == line;
      assert WritesAtom(sol, predicates, line, n, k);
    }
  }

  lemma {:induction false} LinesComplete(sol: Solution, predicates: Option<seq<string>>, line: string, i: int, k: int)
    requires WritesAtom(sol, predicates, line, i, k)
    ensures line in Lines(sol, predicates)
  {
    var n := |sol| - 1;
    var init := sol[..n];
    var g := sol[n];
    if i < n {
      assert init[i] == sol[i];
      LinesComplete(init, predicates, line, i, k);
    } else {
      assert GroupLines(g.0, g.1)[k] == line;
    }
  }

  /** Without a filter there is one line per stored atom. */
  lemma {:induction false} LinesCount(sol: Solution)
    ensures |Lines(sol, None)| == Size(sol)
  {
    if |sol| > 0 {
      LinesCount(sol[..|sol| - 1]);
    }
  }

  /** Serialising what `solve` collected writes one fact per shown atom. */
  lemma OneFactPerAtom(syms: seq<Symbol>)
    ensures |Lines(Collect(syms), None)| == |syms|
  {
    LinesCount(Collect(syms));
    CollectSize(syms);
  }

  /** An empty predicate list filters nothing out. */
  lemma {:induction false} EmptyFilter(sol: Solution)
    ensures Lines(sol, Some([])) == Lines(sol, None)
  {
    if |sol| > 0 {
      EmptyFilter(sol[..|sol| - 1]);
    }
  }

  /** Facts of the predicates of a later group come after those of earlier
      groups: the lines of `sol + [g]` are those of `sol` followed by `g`'s. */
  lemma LinesAppend(sol: Solution, g: (string, seq<Args>), predicates: Option<seq<string>>)
    ensures Lines(sol + [g], predicates) ==
              Lines(sol, predicates) + (if Included(g.0, predicates) then GroupLines(g.0, g.1) else [])
  {
    assert (sol + [g])[..|sol|] == sol;
  }

  /** `str(n)` holds neither a comma nor a newline. */
  lemma IntTextPlain(n: int)
    ensures NoSep(IntToString(n), ',') && NoSep(IntToString(n), '\n')
  {
  }

  /** The arguments can be read back from a fact by splitting the text
      between the parentheses at the commas, when no symbol argument holds a
      comma of its own. */
  lemma ArgsReadBack(name: string, args: seq<Arg>)
    requires |args| > 0
    requires forall i :: 0 <= i < |args| && args[i].Sym? ==> NoSep(args[i].text, ',')
    ensures var line := Line(name, Tuple(args));
            line[..|name|] == name && line[|name|] == '(' && line[|line| - 2..] == ")." &&
            Split(line[|name| + 1..|line| - 2], ',') == ArgTexts(args)
  {
    var ts := ArgTexts(args);
    forall t | t in ts
      ensures NoSep(t, ',')
    {
      var i :| 0 <= i < |ts| && ts[i] == t;
      if args[i].Num? {
        IntTextPlain(args[i].n);
      }
    }
    var line := Line(name, Tuple(args));
    assert line[|name| + 1..|line| - 2] == Join(ts, ',');
    SplitJoin(ts, ',');
  }
}
