/** The solver's atoms as text, and the fourteen `re.match` patterns the
    topology parsers try on each of them, in the parsers' order.

    A pattern is a literal `name(` followed by `\d+`, then for binary atoms
    `,` and `\d+` (or `\w+` for the `*_is` atoms), then `)`. `re.match`
    anchors only at the front, so text after the closing parenthesis is
    ignored. A greedy `\d+` or `\w+` that is followed by `,` or `)` can only
    succeed with the longest run of digits or word characters, because
    neither `,` nor `)` is one of them; the matchers below therefore take
    the longest run. Digits and word characters are ASCII here. */
module Atoms {
  import opened Common
  import opened Text

  /** `\w` for ASCII: letters, digits and the underscore. */
  predicate IsWordChar(c: char) {
    ('a' <= c <= 'z') || ('A' <= c <= 'Z') || IsDigit(c) || c == '_'
  }

  predicate AllWord(s: string) {
    forall i :: 0 <= i < |s| ==> IsWordChar(s[i])
  }

  /** Length of the longest run of digits at the front of `s`. */
  function DigitRun(s: string): (n: nat)
    ensures n <= |s|
    ensures forall i :: 0 <= i < n ==> IsDigit(s[i])
    ensures n < |s| ==> !IsDigit(s[n])
  {
    if |s| > 0 && IsDigit(s[0]) then 1 + DigitRun(s[1..]) else 0
  }

  /** Length of the longest run of word characters at the front of `s`. */
  function WordRun(s: string): (n: nat)
    ensures n <= |s|
    ensures forall i :: 0 <= i < n ==> IsWordChar(s[i])
    ensures n < |s| ==> !IsWordChar(s[n])
  {
    if |s| > 0 && IsWordChar(s[0]) then 1 + WordRun(s[1..]) else 0
  }

  /** `(\d+)` at the front of `s`: `int` of the digits and the text after them. */
  function Number(s: string): (r: Option<(nat, string)>)
    ensures r.None? <==> (|s| == 0 || !IsDigit(s[0]))
    ensures r.Some? ==> |r.value.1| < |s| && s == s[..|s| - |r.value.1|] + r.value.1
  {
    var n := DigitRun(s);
    if n == 0 then None
    else
      assert AllDigits(s[..n]);
      assert s == s[..n] + s[n..];
      Some((DigitsValue(s[..n]), s[n..]))
  }

  /** `(\w+)` at the front of `s`: the word and the text after it. */
  function Word(s: string): (r: Option<(string, string)>)
    ensures r.None? <==> (|s| == 0 || !IsWordChar(s[0]))
    ensures r.Some? ==> |r.value.0| > 0 && AllWord(r.value.0) && s == r.value.0 + r.value.1
  {
    var n := WordRun(s);
    if n == 0 then None
    else
      assert s == s[..n] + s[n..];
      Some((s[..n], s[n..]))
  }

  /** The text after the literal `lit`, when `s` starts with it. */
  function Literal(lit: string, s: string): (r: Option<string>)
    ensures r.Some? <==> lit <= s
    ensures r.Some? ==> s == lit + r.value
  {
    if lit <= s then
      assert s == lit + s[|lit|..];
      Some(s[|lit|..])
    else None
  }

  /** The per-room integer fields, in the order the parsers list them. */
  datatype Field = Width | Height | Gx | Gy

  /** The three kinds of room content. */
  datatype Content = Items | Enemies | Traps

  /** What one recognised atom says. */
  datatype Atom =
    | RoomAtom(room: nat)
    | CorridorAtom(from: nat, to: nat)
    | SpawnAtom(room: nat)
    | StairsAtom(room: nat)
    | FieldAtom(field: Field, room: nat, value: nat)
    | InAtom(content: Content, thing: nat, room: nat)
    | IsAtom(content: Content, thing: nat, kind: string)

  /** One of the fourteen patterns. */
  datatype Pattern =
    | RoomPattern | CorridorPattern | SpawnPattern | StairsPattern
    | FieldPattern(field: Field) | InPattern(content: Content) | IsPattern(content: Content)

  /** The patterns in the order the parsers try them. */
  const Patterns: seq<Pattern> := [
    RoomPattern, CorridorPattern, SpawnPattern, StairsPattern,
    FieldPattern(Width), FieldPattern(Height), FieldPattern(Gx), FieldPattern(Gy),
    InPattern(Items), IsPattern(Items), InPattern(Enemies), IsPattern(Enemies),
    InPattern(Traps), IsPattern(Traps)]

  /** The predicate name a pattern starts with. */
  function Name(p: Pattern): string {
    match p
    case RoomPattern => "room"
    case CorridorPattern => "corridor"
    case SpawnPattern => "is_spawn"
    case StairsPattern => "has_stairs"
    case FieldPattern(Width) => "room_width"
    case FieldPattern(Height) => "room_height"
    case FieldPattern(Gx) => "room_gx"
    case FieldPattern(Gy) => "room_gy"
    case InPattern(Items) => "item_in"
    case IsPattern(Items) => "item_is"
    case InPattern(Enemies) => "enemy_in"
    case IsPattern(Enemies) => "enemy_is"
    case InPattern(Traps) => "trap_in"
    case IsPattern(Traps) => "trap_is"
  }

  /** The literal text a pattern must start with. */
  function Opening(p: Pattern): string {
    Name(p) + "("
  }

  /** The pattern that recognises an atom. */
  function PatternOf(a: Atom): Pattern {
    match a
    case RoomAtom(_) => RoomPattern
    case CorridorAtom(_, _) => CorridorPattern
    case SpawnAtom(_) => SpawnPattern
    case StairsAtom(_) => StairsPattern
    case FieldAtom(f, _, _) => FieldPattern(f)
    case InAtom(c, _, _) => InPattern(c)
    case IsAtom(c, _, _) => IsPattern(c)
  }

  /** `(\d+)\)` after the opening: the number, if a `)` follows it. */
  function OneNumber(rest: string): (r: Option<nat>) {
    match Number(rest)
    case None => None
    case Some((n, tail)) => if ")" <= tail then Some(n) else None
  }

  /** `(\d+),(\d+)\)` after the opening. */
  function TwoNumbers(rest: string): (r: Option<(nat, nat)>) {
    match Number(rest)
    case None => None
    case Some((a, tail)) =>
      if "," <= tail then
        match Number(tail[1..])
        case None => None
        case Some((b, tail')) => if ")" <= tail' then Some((a, b)) else None
      else None
  }

  /** `(\d+),(\w+)\)` after the opening. */
  function NumberAndWord(rest: string): (r: Option<(nat, string)>)
    ensures r.Some? ==> |r.value.1| > 0 && AllWord(r.value.1)
  {
    match Number(rest)
    case None => None
    case Some((a, tail)) =>
      if "," <= tail then
        match Word(tail[1..])
        case None => None
        case Some((w, tail')) => if ")" <= tail' then Some((a, w)) else None
      else None
  }

  /** What follows a pattern's opening: one number, two numbers, or a number and a word. */
  datatype Shape = OneNumberShape | TwoNumbersShape | NumberAndWordShape

  function ShapeOf(p: Pattern): Shape {
    match p
    case RoomPattern => OneNumberShape
    case SpawnPattern => OneNumberShape
    case StairsPattern => OneNumberShape
    case IsPattern(_) => NumberAndWordShape
    case _ => TwoNumbersShape
  }

  /** The atom a one-number pattern builds from its group. */
  function Unary(p: Pattern, n: nat): (a: Atom)
    requires ShapeOf(p) == OneNumberShape
    ensures PatternOf(a) == p
  {
    if p.RoomPattern? then RoomAtom(n) else if p.SpawnPattern? then SpawnAtom(n) else StairsAtom(n)
  }

  /** The atom a two-number pattern builds from its groups. */
  function Binary(p: Pattern, x: nat, y: nat): (a: Atom)
    requires ShapeOf(p) == TwoNumbersShape
    ensures PatternOf(a) == p
  {
    match p
    case CorridorPattern => CorridorAtom(x, y)
    case FieldPattern(f) => FieldAtom(f, x, y)
    case InPattern(c) => InAtom(c, x, y)
  }

  /** The groups after the opening, read as the handler of `p` reads them. */
  function Arguments(p: Pattern, rest: string): (r: Option<Atom>)
    ensures r.Some? ==> PatternOf(r.value) == p
  {
    match ShapeOf(p)
    case OneNumberShape =>
      (match OneNumber(rest)
       case None => None
       case Some(n) => Some(Unary(p, n)))
    case TwoNumbersShape =>
      (match TwoNumbers(rest)
       case None => None
       case Some((x, y)) => Some(Binary(p, x, y)))
    case NumberAndWordShape =>
      (match NumberAndWord(rest)
       case None => None
       case Some((x, w)) => Some(IsAtom(p.content, x, w)))
  }

  /** `re.match(pattern, s)` with the handler's view of the groups. */
  function Match(p: Pattern, s: string): (r: Option<Atom>)
    ensures r.Some? ==> Opening(p) <= s && PatternOf(r.value) == p
  {
    match Literal(Opening(p), s)
    case None => None
    case Some(rest) => Arguments(p, rest)
  }

  /** The first pattern in `ps` that matches `s`, and what it read. */
  function FirstMatch(ps: seq<Pattern>, s: string): (r: Option<Atom>)
    ensures r.None? <==> forall i :: 0 <= i < |ps| ==> Match(ps[i], s).None?
    ensures r.Some? ==> exists i :: 0 <= i < |ps| && Match(ps[i], s) == r &&
                          forall j :: 0 <= j < i ==> Match(ps[j], s).None?
  {
    if |ps| == 0 then None
    else
      match Match(ps[0], s)
      case Some(a) => assert Match(ps[0], s) == Some(a); Some(a)
      case None =>
        var r := FirstMatch(ps[1..], s);
        assert forall i :: 1 <= i < |ps| ==> ps[i] == ps[1..][i - 1];
        if r.Some? then
          var i :| 0 <= i < |ps[1..]| && Match(ps[1..][i], s) == r &&
                   forall j :: 0 <= j < i ==> Match(ps[1..][j], s).None?;
          assert Match(ps[i + 1], s) == r;
          r
        else r
  }

  /** The loop over the patterns with its `break`: the first match handles the atom. */
  function Classify(s: string): (r: Option<Atom>)
    ensures r.None? <==> forall i :: 0 <= i < |Patterns| ==> Match(Patterns[i], s).None?
    ensures r.Some? ==> exists i :: 0 <= i < |Patterns| && Match(Patterns[i], s) == r
  {
    FirstMatch(Patterns, s)
  }

  /** Every pattern appears in the list the parsers try. */
  lemma PatternListed(p: Pattern)
    ensures p in Patterns
  {
    match p
    case FieldPattern(f) => {
      match f
      case Width => assert Patterns[4] == p;
      case Height => assert Patterns[5] == p;
      case Gx => assert Patterns[6] == p;
      case Gy => assert Patterns[7] == p;
    }
    case InPattern(c) => {
      match c
      case Items => assert Patterns[8] == p;
      case Enemies => assert Patterns[10] == p;
      case Traps => assert Patterns[12] == p;
    }
    case IsPattern(c) => {
      match c
      case Items => assert Patterns[9] == p;
      case Enemies => assert Patterns[11] == p;
      case Traps => assert Patterns[13] == p;
    }
    case _ =>
  }

  /** Two openings that one string starts with are prefixes of each other. */
  lemma PrefixesAgree(a: string, b: string, s: string)
    requires a <= s && b <= s && |a| <= |b|
    ensures a <= b
  {
    assert forall i :: 0 <= i < |a| ==> a[i] == s[i] == b[i];
  }

  /** No opening is a prefix of a different opening. */
  lemma {:induction false} OpeningsIncomparable(p: Pattern, q: Pattern)
    requires p != q
    ensures !(Opening(p) <= Opening(q))
  {
    var a, b := Opening(p), Opening(q);
    if a <= b {
      assert a[|a| - 1] == '(';
      // `(` ends every opening and occurs nowhere else, so it pins the length
      assert b[|a| - 1] == '(';
      OpeningShape(p);
      OpeningShape(q);
      assert |a| == |b|;
      assert a == b;
      OpeningInjective(p, q);
    }
  }

  /** An opening is a name without `(`, then `(`. */
  lemma OpeningShape(p: Pattern)
    ensures |Opening(p)| >= 1 && Opening(p)[|Opening(p)| - 1] == '('
    ensures forall i :: 0 <= i < |Opening(p)| - 1 ==> Opening(p)[i] != '('
  {
  }

  /** Different patterns have different names. */
  lemma OpeningInjective(p: Pattern, q: Pattern)
    requires Opening(p) == Opening(q)
    ensures p == q
  {
    assert Name(p) == Opening(p)[..|Opening(p)| - 1];
    assert Name(q) == Opening(q)[..|Opening(q)| - 1];
    NameInjective(p, q);
  }

  lemma NameInjective(p: Pattern, q: Pattern)
    requires Name(p) == Name(q)
    ensures p == q
  {
    var n := Name(p);
    assert n[0] == Name(q)[0];
    assert |n| == |Name(q)|;
    if |n| >= 7 {
      assert n[5] == Name(q)[5] && n[6] == Name(q)[6];
    }
  }

  /** At most one pattern matches any atom, so the order of the patterns
      decides nothing and `Classify` returns whatever the one match read. */
  lemma {:induction false} MatchesExclusive(p: Pattern, q: Pattern, s: string)
    requires Match(p, s).Some? && Match(q, s).Some?
    ensures p == q
  {
    if p != q {
      var a, b := Opening(p), Opening(q);
      if |a| <= |b| {
        PrefixesAgree(a, b, s);
        OpeningsIncomparable(p, q);
      } else {
        PrefixesAgree(b, a, s);
        OpeningsIncomparable(q, p);
      }
    }
  }

  /** `Classify` finds exactly the pattern that matches. */
  lemma {:induction false} ClassifyFindsMatch(p: Pattern, s: string)
    requires Match(p, s).Some?
    ensures Classify(s) == Match(p, s)
  {
    PatternListed(p);
    var k :| 0 <= k < |Patterns| && Patterns[k] == p;
    var r := Classify(s);
    assert r.Some? by { assert Match(Patterns[k], s).Some?; }
    var i :| 0 <= i < |Patterns| && Match(Patterns[i], s) == r;
    MatchesExclusive(Patterns[i], p, s);
  }

  /** The atom as the solver prints it: `name(n)` or `name(a,b)`. */
  function Render(a: Atom): (s: string)
    ensures Opening(PatternOf(a)) <= s
  {
    Opening(PatternOf(a)) + ArgumentText(a)
  }

  /** What follows the opening: the arguments and the closing parenthesis. */
  function ArgumentText(a: Atom): string {
    match a
    case RoomAtom(n) => NatToString(n) + ")"
    case SpawnAtom(n) => NatToString(n) + ")"
    case StairsAtom(n) => NatToString(n) + ")"
    case CorridorAtom(x, y) => Pair(NatToString(x), NatToString(y))
    case FieldAtom(_, r, v) => Pair(NatToString(r), NatToString(v))
    case InAtom(_, t, r) => Pair(NatToString(t), NatToString(r))
    case IsAtom(_, t, k) => Pair(NatToString(t), k)
  }

  /** `x,y)` */
  function Pair(x: string, y: string): string {
    x + ("," + (y + ")"))
  }

  /** An atom the solver can print: a type name is a non-empty word. */
  predicate WellFormed(a: Atom) {
    a.IsAtom? ==> |a.kind| > 0 && AllWord(a.kind)
  }

  /** Whatever a pattern reads is an atom the solver could print. */
  lemma MatchWellFormed(p: Pattern, s: string)
    requires Match(p, s).Some?
    ensures WellFormed(Match(p, s).value)
  {
  }

  /** A digit run stops at the first character that is not a digit. */
  lemma {:induction false} DigitRunOf(d: string, rest: string)
    requires AllDigits(d)
    requires |rest| == 0 || !IsDigit(rest[0])
    ensures DigitRun(d + rest) == |d|
  {
    if |d| > 0 {
      assert (d + rest)[1..] == d[1..] + rest;
      DigitRunOf(d[1..], rest);
    } else {
      assert d + rest == rest;
    }
  }

  /** A word run stops at the first character that is not a word character. */
  lemma {:induction false} WordRunOf(w: string, rest: string)
    requires AllWord(w)
    requires |rest| == 0 || !IsWordChar(rest[0])
    ensures WordRun(w + rest) == |w|
  {
    if |w| > 0 {
      assert (w + rest)[1..] == w[1..] + rest;
      WordRunOf(w[1..], rest);
    } else {
      assert w + rest == rest;
    }
  }

  /** `\d+` reads back the number `str(n)` printed. */
  lemma NumberOf(n: nat, rest: string)
    requires |rest| == 0 || !IsDigit(rest[0])
    ensures Number(NatToString(n) + rest) == Some((n, rest))
  {
    var d := NatToString(n);
    DigitRunOf(d, rest);
    assert (d + rest)[..|d|] == d;
    assert (d + rest)[|d|..] == rest;
    DigitsRoundTrip(n);
  }

  /** `\w+` reads back a printed word. */
  lemma WordOf(w: string, rest: string)
    requires |w| > 0 && AllWord(w)
    requires |rest| == 0 || !IsWordChar(rest[0])
    ensures Word(w + rest) == Some((w, rest))
  {
    WordRunOf(w, rest);
    assert (w + rest)[..|w|] == w;
    assert (w + rest)[|w|..] == rest;
  }

  /** The arguments of a printed binary atom read back. */
  lemma TwoNumbersOf(a: nat, b: nat)
    ensures TwoNumbers(Pair(NatToString(a), NatToString(b))) == Some((a, b))
  {
    var second := NatToString(b) + ")";
    var tail := "," + second;
    assert Number(Pair(NatToString(a), NatToString(b))) == Some((a, tail)) by {
      NumberOf(a, tail);
    }
    assert tail[1..] == second;
    assert Number(second) == Some((b, ")")) by {
      NumberOf(b, ")");
    }
    TwoNumbersStep(Pair(NatToString(a), NatToString(b)), a, tail, b, ")");
  }

  /** `TwoNumbers` succeeds once both numbers and the separators are in place. */
  lemma TwoNumbersStep(rest: string, a: nat, tail: string, b: nat, tail': string)
    requires Number(rest) == Some((a, tail)) && "," <= tail
    requires Number(tail[1..]) == Some((b, tail')) && ")" <= tail'
    ensures TwoNumbers(rest) == Some((a, b))
  {
  }

  /** The arguments of a printed `*_is` atom read back. */
  lemma NumberAndWordOf(a: nat, w: string)
    requires |w| > 0 && AllWord(w)
    ensures NumberAndWord(Pair(NatToString(a), w)) == Some((a, w))
  {
    var tail := "," + (w + ")");
    NumberOf(a, tail);
    assert tail[1..] == w + ")";
    WordOf(w, ")");
  }

  /** The handler of an atom's pattern reads back its printed arguments. */
  lemma ArgumentsOf(a: Atom)
    requires WellFormed(a)
    ensures Arguments(PatternOf(a), ArgumentText(a)) == Some(a)
  {
    if a.IsAtom? {
      TypedArgumentsOf(a);
    } else if a.RoomAtom? || a.SpawnAtom? || a.StairsAtom? {
      UnaryArgumentsOf(a);
    } else {
      BinaryArgumentsOf(a);
    }
  }

  lemma TypedArgumentsOf(a: Atom)
    requires WellFormed(a) && a.IsAtom?
    ensures Arguments(PatternOf(a), ArgumentText(a)) == Some(a)
  {
    var t := ArgumentText(a);
    assert t == Pair(NatToString(a.thing), a.kind);
    NumberAndWordOf(a.thing, a.kind);
    assert NumberAndWord(t) == Some((a.thing, a.kind));
  }

  lemma UnaryArgumentsOf(a: Atom)
    requires a.RoomAtom? || a.SpawnAtom? || a.StairsAtom?
    ensures Arguments(PatternOf(a), ArgumentText(a)) == Some(a)
  {
    var t := ArgumentText(a);
    assert t == NatToString(a.room) + ")";
    OneNumberOf(a.room);
    assert OneNumber(t) == Some(a.room);
  }

  lemma BinaryArgumentsOf(a: Atom)
    requires a.CorridorAtom? || a.FieldAtom? || a.InAtom?
    ensures Arguments(PatternOf(a), ArgumentText(a)) == Some(a)
  {
    if a.CorridorAtom? {
      BinaryArgumentsFrom(a, a.from, a.to);
    } else if a.FieldAtom? {
      BinaryArgumentsFrom(a, a.room, a.value);
    } else {
      BinaryArgumentsFrom(a, a.thing, a.room);
    }
  }

  lemma BinaryArgumentsFrom(a: Atom, x: nat, y: nat)
    requires ShapeOf(PatternOf(a)) == TwoNumbersShape
    requires Binary(PatternOf(a), x, y) == a
    requires ArgumentText(a) == Pair(NatToString(x), NatToString(y))
    ensures Arguments(PatternOf(a), ArgumentText(a)) == Some(a)
  {
    TwoNumbersOf(x, y);
  }

  /** The argument of a printed unary atom reads back. */
  lemma OneNumberOf(n: nat)
    ensures OneNumber(NatToString(n) + ")") == Some(n)
  {
    NumberOf(n, ")");
  }

  /** A literal is stripped from the front of a string that starts with it. */
  lemma LiteralOf(lit: string, x: string)
    ensures Literal(lit, lit + x) == Some(x)
  {
    assert (lit + x)[|lit|..] == x;
  }

  /** The pattern of an atom reads back its printed form. */
  lemma MatchRender(a: Atom)
    requires WellFormed(a)
    ensures Match(PatternOf(a), Render(a)) == Some(a)
  {
    LiteralOf(Opening(PatternOf(a)), ArgumentText(a));
    ArgumentsOf(a);
  }

  /** Round trip: classifying a printed atom gives the atom back. */
  lemma ClassifyRender(a: Atom)
    requires WellFormed(a)
    ensures Classify(Render(a)) == Some(a)
  {
    MatchRender(a);
    ClassifyFindsMatch(PatternOf(a), Render(a));
  }
}
