/** Config symbols set in a defconfig, line by line. */
module GraftConfigs {

  type Line = string

  /** CONFIG_name=value */
  datatype Symbol = Symbol(name: string, value: string)

  function Head(name: string): Line { "CONFIG_" + name + "=" }

  function Target(s: Symbol): Line { Head(s.name) + s.value }

  /** line.startswith(...) */
  predicate StartsWith(line: Line, p: string) { p <= line }

  predicate NotSet(name: string, line: Line) { line == "# CONFIG_" + name + " is not set" }

  /** The line gives the symbol another state. */
  predicate Conflicting(s: Symbol, line: Line) {
    NotSet(s.name, line) || (StartsWith(line, Head(s.name)) && line != Target(s))
  }

  function FirstConflict(lines: seq<Line>, s: Symbol, i: nat): (r: nat)
    requires i <= |lines|
    ensures i <= r <= |lines| && (r < |lines| ==> Conflicting(s, lines[r]))
    ensures forall k :: i <= k < r ==> !Conflicting(s, lines[k])
    decreases |lines| - i
  {
    if i == |lines| || Conflicting(s, lines[i]) then i else FirstConflict(lines, s, i + 1)
  }

  datatype Change = Already | Rewritten | Appended

  /** One turn of the loop in enable_configs(). */
  function Enable(lines: seq<Line>, s: Symbol, marker: Line): (r: (seq<Line>, Change))
    ensures r.1 == Already <==> Target(s) in lines
    ensures r.1 == Already ==> r.0 == lines
  {
    var i := FirstConflict(lines, s, 0);
    if Target(s) in lines then (lines, Already)
    else if i < |lines| then (lines[i := Target(s)], Rewritten)
    else ((if marker in lines then lines else lines + ["", marker]) + [Target(s)], Appended)
  }

  function EnableAll(lines: seq<Line>, symbols: seq<Symbol>, marker: Line): seq<Line> {
    if symbols == [] then lines
    else Enable(EnableAll(lines, symbols[..|symbols| - 1], marker), symbols[|symbols| - 1], marker).0
  }

  // ---- what a line is about ----

  predicate Plain(name: string) { '=' !in name }

  /** The head's text, character by character. */
  lemma HeadIn(name: string, line: Line)
    requires StartsWith(line, Head(name))
    ensures |line| > 7 + |name| && line[7 + |name|] == '=' && line[7..7 + |name|] == name
  {
    assert Head(name)[7..7 + |name|] == name && Head(name)[7 + |name|] == '=';
    assert line[..|Head(name)|] == Head(name);
    assert line[7..7 + |name|] == line[..|Head(name)|][7..7 + |name|];
  }

  lemma LongerNameHoldsSign(a: string, b: string, line: Line)
    requires StartsWith(line, Head(a)) && StartsWith(line, Head(b)) && |a| < |b|
    ensures '=' in b
  {
    HeadIn(a, line);
    HeadIn(b, line);
    assert b[|a|] == line[7..7 + |b|][|a|] == line[7 + |a|];
  }

  /** A line sets at most one plainly named symbol. */
  lemma HeadsDiffer(a: string, b: string, line: Line)
    requires Plain(a) && Plain(b) && StartsWith(line, Head(a)) && StartsWith(line, Head(b))
    ensures a == b
  {
    HeadIn(a, line);
    HeadIn(b, line);
    if |a| < |b| {
      LongerNameHoldsSign(a, b, line);
    } else if |b| < |a| {
      LongerNameHoldsSign(b, a, line);
    }
  }

  lemma TargetConflictsOnlyWithItself(s: Symbol, t: Symbol)
    requires Plain(s.name) && Plain(t.name) && Conflicting(t, Target(s))
    ensures s.name == t.name
  {
    assert Target(s)[0] == 'C' && ("# CONFIG_" + t.name + " is not set")[0] == '#';
    assert StartsWith(Target(s), Head(s.name));
    HeadsDiffer(s.name, t.name, Target(s));
  }

  // ---- what enable_configs() achieves ----

  /** The lines that give the symbol another state: "is not set" and any other value of exactly this name. */
  lemma ConflictIs(s: Symbol, line: Line)
    ensures
      var head := "CONFIG_" + s.name + "=";
      Conflicting(s, line) <==>
        || line == "# CONFIG_" + s.name + " is not set"
        || (|line| >= |head| && line[..|head|] == head && line[|head|..] != s.value)
  {
    var head := Head(s.name);
    if head <= line {
      assert line == head + line[|head|..];
    }
  }

  /**
   What one turn makes of the defconfig: nothing if the wanted line is there; else the first line
   that gives the symbol another state becomes the wanted one; else the wanted line comes last,
   under the marker, which is put there once.
   */
  lemma TurnIs(lines: seq<Line>, s: Symbol, marker: Line)
    ensures
      var turn, wanted := Enable(lines, s, marker), "CONFIG_" + s.name + "=" + s.value;
      var r, change := turn.0, turn.1;
      && (change == Already <==> wanted in lines) && (change == Already ==> r == lines)
      && (change == Rewritten ==>
            exists i ::
              && 0 <= i < |lines| && r == lines[i := wanted] && Conflicting(s, lines[i])
              && (forall k :: 0 <= k < i ==> !Conflicting(s, lines[k])))
      && (change == Appended ==>
            && (forall k :: 0 <= k < |lines| ==> !Conflicting(s, lines[k]))
            && r == (if marker in lines then lines + [wanted] else lines + ["", marker, wanted]))
  {
    assert lines + ["", marker] + [Target(s)] == lines + ["", marker, Target(s)];
  }

  /** A line that the turn for s leaves alone stays; the symbol's own line is there afterwards. */
  lemma EnableKeeps(lines: seq<Line>, s: Symbol, marker: Line, line: Line)
    ensures Target(s) in Enable(lines, s, marker).0
    ensures line in lines && !Conflicting(s, line) ==> line in Enable(lines, s, marker).0
  {
    var r := Enable(lines, s, marker).0;
    var i := FirstConflict(lines, s, 0);
    if Target(s) !in lines && i < |lines| {
      assert r[i] == Target(s);
      if line in lines && !Conflicting(s, line) {
        var k :| 0 <= k < |lines| && lines[k] == line;
        assert r[k] == line;
      }
    }
  }

  lemma {:induction false} LineStays(lines: seq<Line>, symbols: seq<Symbol>, marker: Line, line: Line, k: nat)
    requires k <= |symbols| && line in EnableAll(lines, symbols[..k], marker)
    requires forall j :: k <= j < |symbols| ==> !Conflicting(symbols[j], line)
    ensures line in EnableAll(lines, symbols, marker)
    decreases |symbols| - k
  {
    if k == |symbols| {
      assert symbols[..k] == symbols;
    } else {
      assert symbols[..k + 1][..k] == symbols[..k];
      EnableKeeps(EnableAll(lines, symbols[..k], marker), symbols[k], marker, line);
      LineStays(lines, symbols, marker, line, k + 1);
    }
  }

  /** A requested line is there at the end unless a later symbol conflicts with it. */
  lemma AllEnabled(lines: seq<Line>, symbols: seq<Symbol>, marker: Line, k: nat)
    requires k < |symbols| && forall j :: k < j < |symbols| ==> !Conflicting(symbols[j], Target(symbols[k]))
    ensures Target(symbols[k]) in EnableAll(lines, symbols, marker)
  {
    assert symbols[..k + 1][..k] == symbols[..k];
    EnableKeeps(EnableAll(lines, symbols[..k], marker), symbols[k], marker, Target(symbols[k]));
    LineStays(lines, symbols, marker, Target(symbols[k]), k + 1);
  }

  /** Of plainly named symbols, each is set at the end to the last value asked for it. */
  lemma LastValueIsSet(lines: seq<Line>, symbols: seq<Symbol>, marker: Line, k: nat)
    requires k < |symbols| && forall j :: 0 <= j < |symbols| ==> Plain(symbols[j].name)
    requires forall j :: k < j < |symbols| && symbols[j].name == symbols[k].name ==> symbols[j].value == symbols[k].value
    ensures Target(symbols[k]) in EnableAll(lines, symbols, marker)
  {
    forall j | k < j < |symbols| ensures !Conflicting(symbols[j], Target(symbols[k])) {
      if symbols[j].name == symbols[k].name {
        TargetIsNoConflict(symbols[j]);
        assert symbols[j] == symbols[k];
      } else if Conflicting(symbols[j], Target(symbols[k])) {
        TargetConflictsOnlyWithItself(symbols[k], symbols[j]);
      }
    }
    AllEnabled(lines, symbols, marker, k);
  }

  ghost predicate AllThere(lines: seq<Line>, symbols: seq<Symbol>) {
    forall k :: 0 <= k < |symbols| ==> Target(symbols[k]) in lines
  }

  lemma {:induction false} SecondCallChangesNothing(lines: seq<Line>, symbols: seq<Symbol>, marker: Line)
    requires AllThere(lines, symbols)
    ensures EnableAll(lines, symbols, marker) == lines
  {
    if symbols != [] {
      SecondCallChangesNothing(lines, symbols[..|symbols| - 1], marker);
      assert Target(symbols[|symbols| - 1]) in lines;
    }
  }

  function Conflicts(lines: seq<Line>, s: Symbol): nat {
    if lines == [] then 0 else Conflicts(lines[..|lines| - 1], s) + if Conflicting(s, lines[|lines| - 1]) then 1 else 0
  }

  lemma {:induction false} ConflictsSplit(a: seq<Line>, b: seq<Line>, s: Symbol)
    ensures Conflicts(a + b, s) == Conflicts(a, s) + Conflicts(b, s)
  {
    if b == [] {
      assert a + b == a;
    } else {
      assert (a + b)[..|a + b| - 1] == a + b[..|b| - 1];
      ConflictsSplit(a, b[..|b| - 1], s);
    }
  }

  lemma OneConflict(line: Line, s: Symbol)
    ensures Conflicts([line], s) == if Conflicting(s, line) then 1 else 0
  {
    assert [line][..0] == [];
  }

  lemma TargetIsNoConflict(s: Symbol)
    ensures !Conflicting(s, Target(s)) && !Conflicting(s, "")
  {
    assert Target(s)[0] == 'C' && ("# CONFIG_" + s.name + " is not set")[0] == '#';
    assert |Head(s.name)| > 0;
  }

  lemma {:induction false} NoConflicts(lines: seq<Line>, s: Symbol)
    requires forall k :: 0 <= k < |lines| ==> !Conflicting(s, lines[k])
    ensures Conflicts(lines, s) == 0
  {
    if lines != [] {
      NoConflicts(lines[..|lines| - 1], s);
    }
  }

  lemma RewriteConflicts(lines: seq<Line>, s: Symbol, i: nat)
    requires i < |lines| && Conflicting(s, lines[i])
    ensures Conflicts(lines[i := Target(s)], s) == Conflicts(lines, s) - 1
  {
    var a, b := lines[..i], lines[i + 1..];
    assert lines == a + [lines[i]] + b && lines[i := Target(s)] == a + [Target(s)] + b;
    ConflictsSplit(a + [lines[i]], b, s);
    ConflictsSplit(a + [Target(s)], b, s);
    ConflictsSplit(a, [lines[i]], s);
    ConflictsSplit(a, [Target(s)], s);
    OneConflict(lines[i], s);
    OneConflict(Target(s), s);
    TargetIsNoConflict(s);
  }

  lemma AppendConflicts(lines: seq<Line>, s: Symbol, marker: Line)
    requires !Conflicting(s, marker)
    ensures Conflicts((if marker in lines then lines else lines + ["", marker]) + [Target(s)], s) == Conflicts(lines, s)
  {
    TargetIsNoConflict(s);
    var tail := ["", marker];
    forall k | 0 <= k < |tail| ensures !Conflicting(s, tail[k]) {
    }
    NoConflicts(tail, s);
    NoConflicts([Target(s)], s);
    ConflictsSplit(lines, tail, s);
    ConflictsSplit(lines, [Target(s)], s);
    ConflictsSplit(lines + tail, [Target(s)], s);
  }

  /**
   Afterwards no line gives the symbol another state exactly when there was at most one such
   line, and none if the wanted line was there already: only one is rewritten per call.
   */
  lemma SettledIff(lines: seq<Line>, s: Symbol, marker: Line)
    requires !Conflicting(s, marker)
    ensures Conflicts(Enable(lines, s, marker).0, s) == 0 <==>
      Conflicts(lines, s) == 0 || (Conflicts(lines, s) == 1 && Target(s) !in lines)
  {
    var i := FirstConflict(lines, s, 0);
    if Target(s) !in lines {
      if i < |lines| {
        RewriteConflicts(lines, s, i);
      } else {
        NoConflicts(lines, s);
        AppendConflicts(lines, s, marker);
      }
    }
  }

  // ---- a whole call ----

  /** A line about one plainly named symbol is not about another. */
  lemma AboutOneSymbol(s: Symbol, t: Symbol, line: Line)
    requires Plain(s.name) && Plain(t.name) && s.name != t.name && (Conflicting(s, line) || line == Target(s))
    ensures !Conflicting(t, line) && line != Target(t)
  {
    var a, b := "# CONFIG_" + s.name + " is not set", "# CONFIG_" + t.name + " is not set";
    assert a[9..|a| - 11] == s.name && b[9..|b| - 11] == t.name;
    assert Head(s.name)[0] == 'C' && Head(t.name)[0] == 'C' && a[0] == '#' && b[0] == '#';
    assert StartsWith(Target(s), Head(s.name)) && StartsWith(Target(t), Head(t.name));
    if StartsWith(line, Head(s.name)) && StartsWith(line, Head(t.name)) {
      HeadsDiffer(s.name, t.name, line);
    }
  }

  lemma ReplacedElsewhere(lines: seq<Line>, t: Symbol, i: nat, line: Line)
    requires i < |lines| && !Conflicting(t, lines[i]) && !Conflicting(t, line)
    requires lines[i] != Target(t) && line != Target(t)
    ensures Conflicts(lines[i := line], t) == Conflicts(lines, t)
    ensures Target(t) in lines[i := line] <==> Target(t) in lines
  {
    var a, b := lines[..i], lines[i + 1..];
    assert lines == a + [lines[i]] + b && lines[i := line] == a + [line] + b;
    ConflictsSplit(a + [lines[i]], b, t);
    ConflictsSplit(a + [line], b, t);
    ConflictsSplit(a, [lines[i]], t);
    ConflictsSplit(a, [line], t);
    OneConflict(lines[i], t);
    OneConflict(line, t);
  }

  lemma AppendedElsewhere(lines: seq<Line>, t: Symbol, more: seq<Line>)
    requires forall k :: 0 <= k < |more| ==> !Conflicting(t, more[k]) && more[k] != Target(t)
    ensures Conflicts(lines + more, t) == Conflicts(lines, t) && (Target(t) in lines + more <==> Target(t) in lines)
  {
    ConflictsSplit(lines, more, t);
    NoConflicts(more, t);
  }

  /** The marker is no config line of the symbol. */
  predicate MarkerApart(t: Symbol, marker: Line) { !Conflicting(t, marker) && marker != Target(t) }

  /** The turn of one symbol leaves every other symbol's lines alone. */
  lemma OtherTurn(lines: seq<Line>, s: Symbol, t: Symbol, marker: Line)
    requires Plain(s.name) && Plain(t.name) && s.name != t.name && MarkerApart(t, marker)
    ensures
      var r := Enable(lines, s, marker).0;
      Conflicts(r, t) == Conflicts(lines, t) && (Target(t) in r <==> Target(t) in lines)
  {
    var i := FirstConflict(lines, s, 0);
    AboutOneSymbol(s, t, Target(s));
    if Target(s) !in lines {
      if i < |lines| {
        AboutOneSymbol(s, t, lines[i]);
        ReplacedElsewhere(lines, t, i, Target(s));
      } else {
        TargetIsNoConflict(t);
        var more := (if marker in lines then [] else ["", marker]) + [Target(s)];
        assert |Target(t)| > 0;
        assert Enable(lines, s, marker).0 == lines + more;
        AppendedElsewhere(lines, t, more);
      }
    }
  }

  ghost predicate Distinct(symbols: seq<Symbol>, marker: Line) {
    && (forall i :: 0 <= i < |symbols| ==> Plain(symbols[i].name) && MarkerApart(symbols[i], marker))
    && (forall i, j :: 0 <= i < j < |symbols| ==> symbols[i].name != symbols[j].name)
  }

  /** The first k turns leave the lines of any other symbol alone. */
  lemma {:induction false} OtherTurns(lines: seq<Line>, symbols: seq<Symbol>, k: nat, t: Symbol, marker: Line)
    requires k <= |symbols| && Plain(t.name) && MarkerApart(t, marker)
    requires forall i :: 0 <= i < k ==> Plain(symbols[i].name) && symbols[i].name != t.name
    ensures
      var r := EnableAll(lines, symbols[..k], marker);
      Conflicts(r, t) == Conflicts(lines, t) && (Target(t) in r <==> Target(t) in lines)
  {
    if k > 0 {
      OtherTurns(lines, symbols, k - 1, t, marker);
      assert symbols[..k][..k - 1] == symbols[..k - 1];
      OtherTurn(EnableAll(lines, symbols[..k - 1], marker), symbols[k - 1], t, marker);
    }
  }

  /**
   Over a whole call for several symbols: each is left without a line that gives it another
   state exactly when the defconfig had at most one, and none if the wanted line was there.
   */
  lemma {:induction false} AllSettledIff(lines: seq<Line>, symbols: seq<Symbol>, marker: Line, k: nat)
    requires Distinct(symbols, marker) && k < |symbols|
    ensures
      var s := symbols[k];
      Conflicts(EnableAll(lines, symbols, marker), s) == 0 <==>
        Conflicts(lines, s) == 0 || (Conflicts(lines, s) == 1 && Target(s) !in lines)
  {
    var n := |symbols| - 1;
    var m := EnableAll(lines, symbols[..n], marker);
    if k < n {
      AllSettledIff(lines, symbols[..n], marker, k);
      OtherTurn(m, symbols[n], symbols[k], marker);
    } else {
      OtherTurns(lines, symbols, n, symbols[n], marker);
      SettledIff(m, symbols[n], marker);
    }
  }

  lemma ValueConflicts(name: string, a: string, b: string)
    requires a != b
    ensures Conflicting(Symbol(name, a), Target(Symbol(name, b)))
  {
    var s, t := Symbol(name, a), Symbol(name, b);
    assert Target(t)[..|Head(name)|] == Head(name);
    assert Target(s)[|Head(name)|..] == a && Target(t)[|Head(name)|..] == b;
  }

  /** The failing half: of two lines that set the symbol otherwise the second stays. */
  lemma SecondConflictStays() returns (lines: seq<Line>, s: Symbol, marker: Line)
    ensures !Conflicting(s, marker) && Conflicts(lines, s) == 2 && Target(s) !in lines
    ensures
      var r := Enable(lines, s, marker).0;
      Target(s) in r && Conflicts(r, s) == 1 && Target(Symbol(s.name, "n")) in r
  {
    s, marker := Symbol("ZRAM", "y"), "";
    var m, n := Target(Symbol("ZRAM", "m")), Target(Symbol("ZRAM", "n"));
    lines := [m, n];
    ValueConflicts("ZRAM", "y", "m");
    ValueConflicts("ZRAM", "y", "n");
    TargetIsNoConflict(s);
    assert lines == [m] + [n];
    ConflictsSplit([m], [n], s);
    OneConflict(m, s);
    OneConflict(n, s);
    RewriteConflicts(lines, s, 0);
    var r := Enable(lines, s, marker).0;
    assert r == lines[0 := Target(s)] && r[1] == n;
  }

  // ---- in place ----

  lemma AllThereSnoc(lines: seq<Line>, symbols: seq<Symbol>, k: nat)
    requires k < |symbols|
    ensures AllThere(lines, symbols[..k + 1]) <==> AllThere(lines, symbols[..k]) && Target(symbols[k]) in lines
  {
    assert symbols[..k + 1] == symbols[..k] + [symbols[k]];
  }

  /** The body of the loop in enable_configs(). */
  method EnableOne(before: seq<Line>, s: Symbol, marker: Line) returns (lines: seq<Line>, change: Change)
    ensures (lines, change) == Enable(before, s, marker)
  {
    lines := before;
    if Target(s) in lines {
      return lines, Already;
    }
    var i := 0;
    while i < |lines| && !Conflicting(s, lines[i])
      invariant i <= |lines| && FirstConflict(lines, s, 0) == FirstConflict(lines, s, i)
    {
      i := i + 1;
    }
    if i < |lines| {
      return lines[i := Target(s)], Rewritten;
    }
    if marker !in lines {
      lines := lines + ["", marker];
    }
    return lines + [Target(s)], Appended;
  }

  /**
   enable_configs() on the lines of the defconfig; it reports "already present" (no line
   appended, none rewritten) exactly when every wanted line is there.
   */
  method EnableConfigs(before: seq<Line>, symbols: seq<Symbol>, marker: Line)
    returns (lines: seq<Line>, appended: nat, rewritten: nat)
    ensures lines == EnableAll(before, symbols, marker)
    ensures appended + rewritten == 0 <==> AllThere(before, symbols)
    ensures appended + rewritten == 0 ==> lines == before
  {
    lines, appended, rewritten := before, 0, 0;
    for k := 0 to |symbols|
      invariant lines == EnableAll(before, symbols[..k], marker)
      invariant appended + rewritten == 0 <==> AllThere(before, symbols[..k])
      invariant appended + rewritten == 0 ==> lines == before
    {
      AllThereSnoc(before, symbols, k);
      assert symbols[..k + 1][..k] == symbols[..k];
      var change;
      lines, change := EnableOne(lines, symbols[k], marker);
      if change == Appended {
        appended := appended + 1;
      } else if change == Rewritten {
        rewritten := rewritten + 1;
      }
    }
    assert symbols[..|symbols|] == symbols;
  }
}
