/** The preprocessor accepts a file exactly when its conditional directives are well nested. */
module PreprocessNesting {
  import opened Options
  import opened Preprocess

  predicate Closes(line: Line) {
    line.Elif? || line.Else? || line.Endif?
  }

  /** The longest group the lines begin with, and the lines behind it. */
  function ParseGroup(lines: seq<Line>): (r: Option<(seq<Node>, seq<Line>)>)
    ensures r.Some? ==> |r.value.1| <= |lines| && (r.value.1 == [] || Closes(r.value.1[0]))
    decreases |lines|, 1
  {
    if lines == [] || Closes(lines[0]) then Some(([], lines))
    else
      match ParseNode(lines)
      case None => None
      case Some((n, r1)) =>
        match ParseGroup(r1)
        case None => None
        case Some((g, r2)) => Some(([n] + g, r2))
  }

  function ParseNode(lines: seq<Line>): (r: Option<(Node, seq<Line>)>)
    requires lines != [] && !Closes(lines[0])
    ensures r.Some? ==> |r.value.1| < |lines|
    decreases |lines|, 0
  {
    match lines[0]
    case Text(id) => Some((NText(id), lines[1..]))
    case If(t) =>
      (match ParseGroup(lines[1..])
       case None => None
       case Some((body, r1)) =>
         match ParseParts(r1)
         case None => None
         case Some((parts, r2)) =>
           match ParseEnd(r2)
           case None => None
           case Some((els, r3)) => Some((NIf(t, body, parts, els), r3)))
  }

  function ParseParts(lines: seq<Line>): (r: Option<(seq<Part>, seq<Line>)>)
    requires lines == [] || Closes(lines[0])
    ensures r.Some? ==> |r.value.1| <= |lines| && (r.value.1 == [] || (Closes(r.value.1[0]) && !r.value.1[0].Elif?))
    decreases |lines|, 2
  {
    if lines == [] || !lines[0].Elif? then Some(([], lines))
    else
      match ParseGroup(lines[1..])
      case None => None
      case Some((body, r1)) =>
        match ParseParts(r1)
        case None => None
        case Some((parts, r2)) => Some(([Part(lines[0].expr, body)] + parts, r2))
  }

  /** `#else` with its group if there is one, and `#endif`. */
  function ParseEnd(lines: seq<Line>): (r: Option<(ElsePart, seq<Line>)>)
    ensures r.Some? ==> |r.value.1| < |lines|
    decreases |lines|, 2
  {
    if lines == [] then None
    else if lines[0].Endif? then Some((NoElse, lines[1..]))
    else if !lines[0].Else? then None
    else
      match ParseGroup(lines[1..])
      case None => None
      case Some((body, r1)) => if r1 != [] && r1[0].Endif? then Some((ElseGroup(body), r1[1..])) else None
  }

  // ----- What is parsed is what was written -----

  lemma {:induction false} GroupParsed(lines: seq<Line>)
    ensures var r := ParseGroup(lines); r.Some? ==> lines == Flatten(r.value.0) + r.value.1
    decreases |lines|, 1
  {
    if lines != [] && !Closes(lines[0]) {
      var n := ParseNode(lines);
      NodeParsed(lines);
      if n.Some? {
        var (node, r1) := n.value;
        GroupParsed(r1);
        var g := ParseGroup(r1);
        if g.Some? {
          assert ([node] + g.value.0)[1..] == g.value.0;
          Glue(FlattenNode(node), Flatten(g.value.0), g.value.1);
        }
      }
    }
  }

  lemma Glue(a: seq<Line>, b: seq<Line>, c: seq<Line>)
    ensures a + (b + c) == (a + b) + c
  {
  }

  lemma {:induction false} NodeParsed(lines: seq<Line>)
    requires lines != [] && !Closes(lines[0])
    ensures var r := ParseNode(lines); r.Some? ==> lines == FlattenNode(r.value.0) + r.value.1
    decreases |lines|, 0
  {
    assert lines == [lines[0]] + lines[1..];
    if lines[0].If? {
      var b := ParseGroup(lines[1..]);
      GroupParsed(lines[1..]);
      if b.Some? {
        var (body, r1) := b.value;
        var p := ParseParts(r1);
        PartsParsed(r1);
        if p.Some? {
          var (parts, r2) := p.value;
          EndParsed(r2);
          var e := ParseEnd(r2);
          if e.Some? {
            IfParsed([lines[0]], Flatten(body), FlattenParts(parts), FlattenElse(e.value.0) + [Endif], e.value.1, lines, r1, r2);
          }
        }
      }
    }
  }

  lemma IfParsed(i: seq<Line>, a: seq<Line>, b: seq<Line>, c: seq<Line>, d: seq<Line>, lines: seq<Line>, r1: seq<Line>, r2: seq<Line>)
    requires lines == i + (a + r1) && r1 == b + r2 && r2 == c + d
    ensures lines == (i + (a + (b + c))) + d
  {
  }

  lemma {:induction false} PartsParsed(lines: seq<Line>)
    requires lines == [] || Closes(lines[0])
    ensures var r := ParseParts(lines); r.Some? ==> lines == FlattenParts(r.value.0) + r.value.1
    decreases |lines|, 2
  {
    if lines != [] && lines[0].Elif? {
      assert lines == [lines[0]] + lines[1..];
      var b := ParseGroup(lines[1..]);
      GroupParsed(lines[1..]);
      if b.Some? {
        var (body, r1) := b.value;
        var p := ParseParts(r1);
        PartsParsed(r1);
        if p.Some? {
          var part := Part(lines[0].expr, body);
          assert ([part] + p.value.0)[1..] == p.value.0;
          Glue([lines[0]], Flatten(body), r1);
          Glue(FlattenPart(part), FlattenParts(p.value.0), p.value.1);
        }
      }
    }
  }

  lemma {:induction false} EndParsed(lines: seq<Line>)
    ensures var r := ParseEnd(lines); r.Some? ==> lines == (FlattenElse(r.value.0) + [Endif]) + r.value.1
    decreases |lines|, 2
  {
    if lines != [] {
      assert lines == [lines[0]] + lines[1..];
      if lines[0].Else? {
        GroupParsed(lines[1..]);
        var b := ParseGroup(lines[1..]);
        if b.Some? && b.value.1 != [] {
          var (body, r1) := b.value;
          assert r1 == [r1[0]] + r1[1..];
          hide Flatten, ParseGroup;
          Glue([lines[0]], Flatten(body), r1);
          Glue([lines[0]] + Flatten(body), [r1[0]], r1[1..]);
        }
      } else if lines[0].Endif? {
        assert FlattenElse(NoElse) + [Endif] == [Endif];
      }
    }
  }

  // ----- What cannot be parsed is refused -----

  /** The machine gives up, or ends with an `#if` open that was not open at the start. */
  ghost predicate Refused<S>(m: Sem<S>, lines: seq<Line>, p: Pp<S>, depth: nat) {
    var r := Run(m, lines, p);
    r.Some? ==> |r.value.stack| > depth
  }

  /** Lines behind others that leave the stack as it was. */
  lemma RefusedBehind<S>(m: Sem<S>, a: seq<Line>, b: seq<Line>, p: Pp<S>, p1: Pp<S>, depth: nat)
    requires Run(m, a, p) == Some(p1) && Refused(m, b, p1, depth)
    ensures Refused(m, a + b, p, depth)
  {
    RunJoin(m, a, b, p);
  }

  /** Any group runs, whether it is processed or skipped. */
  lemma GroupRuns<S>(m: Sem<S>, g: seq<Node>, p: Pp<S>) returns (q: Pp<S>)
    requires p.satisfy <= 2
    ensures Run(m, Flatten(g), p) == Some(q) && q.enable == p.enable && q.satisfy == p.satisfy && q.stack == p.stack
  {
    if p.enable {
      GroupSim(m, g, p);
      var (s, out) := Process(m, g, p.s);
      q := On(p, s, out);
    } else {
      SkipSim(m, g, p);
      q := On(p, p.s, Blank(|Flatten(g)|));
    }
  }

  lemma NodeRuns<S>(m: Sem<S>, n: Node, p: Pp<S>) returns (q: Pp<S>)
    requires p.satisfy <= 2
    ensures Run(m, FlattenNode(n), p) == Some(q) && q.enable == p.enable && q.satisfy == p.satisfy && q.stack == p.stack
  {
    q := GroupRuns(m, [n], p);
    assert [n][1..] == [];
    assert FlattenNode(n) + [] == FlattenNode(n);
  }

  lemma {:induction false} PartsRun<S>(m: Sem<S>, parts: seq<Part>, p: Pp<S>) returns (q: Pp<S>)
    requires p.satisfy <= 1 && p.stack != []
    ensures Run(m, FlattenParts(parts), p) == Some(q) && q.satisfy <= 1 && q.stack == p.stack
    decreases parts
  {
    hide Run;
    if parts == [] {
      RunNone(m, p);
      q := On(p, p.s, Blank(0));
    } else {
      var e := Elif(parts[0].expr);
      var p1 := Step(m, e, p).value;
      RunOne(m, e, p);
      var p2 := GroupRuns(m, parts[0].body, p1);
      RunJoin(m, [e], Flatten(parts[0].body), p);
      q := PartsRun(m, parts[1..], p2);
      RunJoin(m, FlattenPart(parts[0]), FlattenParts(parts[1..]), p);
    }
  }

  lemma {:induction false} GroupRefused<S>(m: Sem<S>, lines: seq<Line>, p: Pp<S>)
    requires ParseGroup(lines) == None && p.satisfy <= 2
    ensures Refused(m, lines, p, |p.stack|)
    decreases |lines|, 1
  {
    hide Run;
    var n := ParseNode(lines);
    if n.None? {
      NodeRefused(m, lines, p);
    } else {
      var (node, r1) := n.value;
      NodeParsed(lines);
      var p1 := NodeRuns(m, node, p);
      GroupRefused(m, r1, p1);
      RefusedBehind(m, FlattenNode(node), r1, p, p1, |p.stack|);
    }
  }

  lemma {:induction false} NodeRefused<S>(m: Sem<S>, lines: seq<Line>, p: Pp<S>)
    requires lines != [] && !Closes(lines[0]) && ParseNode(lines) == None && p.satisfy <= 2
    ensures Refused(m, lines, p, |p.stack|)
    decreases |lines|, 0
  {
    hide Run;
    var i := lines[0];
    var p1 := Step(m, i, p).value;
    RunOne(m, i, p);
    assert lines == [i] + lines[1..];
    var b := ParseGroup(lines[1..]);
    if b.None? {
      GroupRefused(m, lines[1..], p1);
      Deeper(m, lines[1..], p1, |p1.stack|, |p.stack|);
    } else {
      var (body, r1) := b.value;
      GroupParsed(lines[1..]);
      var p2 := GroupRuns(m, body, p1);
      PartsRefused(m, r1, p2, |p.stack|);
      RefusedBehind(m, Flatten(body), r1, p1, p2, |p.stack|);
    }
    RefusedBehind(m, [i], lines[1..], p, p1, |p.stack|);
  }

  lemma Deeper<S>(m: Sem<S>, lines: seq<Line>, p: Pp<S>, d: nat, e: nat)
    requires Refused(m, lines, p, d) && e <= d
    ensures Refused(m, lines, p, e)
  {
  }

  /** Behind the first group of an `#if` whose rest cannot be parsed. */
  lemma {:induction false} PartsRefused<S>(m: Sem<S>, lines: seq<Line>, p: Pp<S>, depth: nat)
    requires p.satisfy <= 1 && |p.stack| == depth + 1 && (lines == [] || Closes(lines[0]))
    requires match ParseParts(lines) case None => true case Some((_, r2)) => ParseEnd(r2) == None
    ensures Refused(m, lines, p, depth)
    decreases |lines|, 2
  {
    hide Run;
    var r := ParseParts(lines);
    if r.None? {
      var e := lines[0];
      var p1 := Step(m, e, p).value;
      RunOne(m, e, p);
      assert lines == [e] + lines[1..];
      var b := ParseGroup(lines[1..]);
      if b.None? {
        GroupRefused(m, lines[1..], p1);
        Deeper(m, lines[1..], p1, |p1.stack|, depth);
      } else {
        var (body, r1) := b.value;
        GroupParsed(lines[1..]);
        var p2 := GroupRuns(m, body, p1);
        PartsRefused(m, r1, p2, depth);
        RefusedBehind(m, Flatten(body), r1, p1, p2, depth);
      }
      RefusedBehind(m, [e], lines[1..], p, p1, depth);
    } else {
      var (parts, r2) := r.value;
      PartsParsed(lines);
      var p1 := PartsRun(m, parts, p);
      EndRefused(m, r2, p1, depth);
      RefusedBehind(m, FlattenParts(parts), r2, p, p1, depth);
    }
  }

  lemma {:induction false} EndRefused<S>(m: Sem<S>, lines: seq<Line>, p: Pp<S>, depth: nat)
    requires p.satisfy <= 1 && |p.stack| == depth + 1 && ParseEnd(lines) == None
    requires lines == [] || (Closes(lines[0]) && !lines[0].Elif?)
    ensures Refused(m, lines, p, depth)
    decreases |lines|, 1
  {
    if lines == [] {
      RunNone(m, p);
    } else {
      hide Run;
      var p1 := Step(m, Else, p).value;
      RunOne(m, Else, p);
      assert lines == [Else] + lines[1..];
      var b := ParseGroup(lines[1..]);
      if b.None? {
        GroupRefused(m, lines[1..], p1);
        Deeper(m, lines[1..], p1, |p1.stack|, depth);
      } else {
        var (body, r1) := b.value;
        GroupParsed(lines[1..]);
        var p2 := GroupRuns(m, body, p1);
        StopsHere(m, r1, p2, depth);
        RefusedBehind(m, Flatten(body), r1, p1, p2, depth);
      }
      RefusedBehind(m, [Else], lines[1..], p, p1, depth);
    }
  }

  lemma StopsHere<S>(m: Sem<S>, lines: seq<Line>, p: Pp<S>, depth: nat)
    requires |p.stack| == depth + 1 && p.satisfy == 2 && (lines == [] || lines[0].Elif? || lines[0].Else?)
    ensures Refused(m, lines, p, depth)
  {
  }

  /** A file is accepted exactly when it consists of nested groups. */
  lemma AcceptedIffNested<S>(m: Sem<S>, lines: seq<Line>, s: S)
    ensures RunFile(m, lines, s).Some? <==> exists g :: lines == Flatten(g)
  {
    var p := Pp(true, 0, [], s, []);
    if RunFile(m, lines, s).Some? {
      if ParseGroup(lines) == None {
        GroupRefused(m, lines, p);
      }
      var (g, rest) := ParseGroup(lines).value;
      GroupParsed(lines);
      var p1 := GroupRuns(m, g, p);
      RunJoin(m, Flatten(g), rest, p);
      assert rest == [];
      assert lines == Flatten(g);
    }
    if g :| lines == Flatten(g) {
      FileSim(m, g, s);
    }
  }
}
