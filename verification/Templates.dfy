/**
What a rule makes of an executed template: lines of key=value pairs
(pkg/apis/nfd/v1alpha1/nodefeaturerule/rule.go, expandMap).
*/
module Templates {
  import opened Basics
  import opened Names

  /** unicode.IsSpace */
  predicate IsSpace(c: char) {
    || c in " \t\n\r\U{000B}\U{000C}\U{0085}\U{00A0}\U{1680}\U{2028}\U{2029}\U{202F}\U{205F}\U{3000}"
    || '\U{2000}' <= c <= '\U{200A}'
  }

  function TrimLeft(s: string): string {
    if s != "" && IsSpace(s[0]) then TrimLeft(s[1..]) else s
  }

  function TrimRight(s: string): string {
    if s != "" && IsSpace(s[|s| - 1]) then TrimRight(s[..|s| - 1]) else s
  }

  function TrimSpace(s: string): string {
    TrimRight(TrimLeft(s))
  }

  /** strings.SplitN(s, sep, 2): the parts before and after the first separator. */
  function Cut(s: string, sep: char): (r: Option<(string, string)>)
    ensures r.Some? <==> sep in s
    ensures r.Some? ==> sep !in r.value.0 && s == r.value.0 + [sep] + r.value.1
  {
    if s == "" then None
    else if s[0] == sep then Some(("", s[1..]))
    else
      var rest := Cut(s[1..], sep);
      if rest.None? then None else Some(([s[0]] + rest.value.0, rest.value.1))
  }

  lemma {:induction false} CutAt(a: string, b: string, sep: char)
    requires sep !in a
    ensures Cut(a + [sep] + b, sep) == Some((a, b))
    decreases |a|
  {
    var s := a + [sep] + b;
    if a == "" {
      assert s[1..] == b;
    } else {
      assert s[1..] == a[1..] + [sep] + b;
      CutAt(a[1..], b, sep);
      assert [a[0]] + a[1..] == a;
    }
  }

  /** One line added to the pairs read so far; None is a line without a value. */
  function AddLine(m: Pairs, line: string): Option<Pairs> {
    var trimmed := TrimSpace(line);
    if trimmed == "" then Some(m)
    else if Cut(trimmed, '=').None? then None
    else Some(m[Cut(trimmed, '=').value.0 := Cut(trimmed, '=').value.1])
  }

  function AddLines(lines: seq<string>): Option<Pairs> {
    if lines == [] then Some(map[])
    else
      var before := AddLines(lines[..|lines| - 1]);
      if before.None? then None else AddLine(before.value, lines[|lines| - 1])
  }

  /** expandMap, after the template has been executed. */
  method ExpandMap(text: string) returns (r: Option<Pairs>)
    ensures r == AddLines(Split(text, '\n'))
  {
    hide Split;
    hide TrimSpace;
    hide Cut;
    var lines := Split(text, '\n');
    var out: Pairs := map[];
    var i := 0;
    while i < |lines|
      invariant 0 <= i <= |lines|
      invariant AddLines(lines[..i]) == Some(out)
    {
      var trimmed := TrimSpace(lines[i]);
      assert lines[..i + 1][..i] == lines[..i];
      if trimmed != "" {
        var split := Cut(trimmed, '=');
        if split.None? {
          FailureStays(lines, i + 1);
          return None;
        }
        out := out[split.value.0 := split.value.1];
      }
      i := i + 1;
    }
    assert lines[..|lines|] == lines;
    return Some(out);
  }

  lemma {:induction false} FailureStays(lines: seq<string>, i: nat)
    requires i <= |lines| && AddLines(lines[..i]).None?
    ensures AddLines(lines).None?
    decreases |lines| - i
  {
    if i == |lines| {
      assert lines[..i] == lines;
    } else {
      assert lines[..i + 1][..i] == lines[..i];
      FailureStays(lines, i + 1);
    }
  }

  predicate BadLine(line: string) {
    TrimSpace(line) != "" && '=' !in TrimSpace(line)
  }

  /** The expansion is refused exactly if some line is neither blank nor a pair. */
  lemma {:induction false} ExpandRefuses(lines: seq<string>)
    ensures AddLines(lines).None? <==> exists l | l in lines :: BadLine(l)
  {
    if lines != [] {
      var init, last := lines[..|lines| - 1], lines[|lines| - 1];
      ExpandRefuses(init);
      assert lines == init + [last];
      assert last in lines;
    }
  }

  // ----- Round trip -----

  datatype Pair = Pair(key: string, value: string)

  /** A pair that can be written on a line of its own and read back. */
  predicate Writable(p: Pair) {
    && '=' !in p.key && '\n' !in p.key && '\n' !in p.value
    && (p.key != "" ==> !IsSpace(p.key[0])) && (p.value != "" ==> !IsSpace(p.value[|p.value| - 1]))
  }

  function Line(p: Pair): string {
    p.key + "=" + p.value
  }

  function Lines(ps: seq<Pair>): (r: seq<string>)
    ensures |r| == |ps| && forall i | 0 <= i < |r| :: r[i] == Line(ps[i])
  {
    seq(|ps|, i requires 0 <= i < |ps| => Line(ps[i]))
  }

  /** Later pairs win. */
  function Overlaid(ps: seq<Pair>): Pairs {
    if ps == [] then map[] else Overlaid(ps[..|ps| - 1])[ps[|ps| - 1].key := ps[|ps| - 1].value]
  }

  lemma LineRead(m: Pairs, p: Pair)
    requires Writable(p)
    ensures AddLine(m, Line(p)) == Some(m[p.key := p.value])
  {
    var l := Line(p);
    assert l[0] == if p.key == "" then '=' else p.key[0];
    assert l[|l| - 1] == if p.value == "" then '=' else p.value[|p.value| - 1];
    assert TrimLeft(l) == l && TrimRight(l) == l;
    CutAt(p.key, p.value, '=');
  }

  lemma {:induction false} LinesRead(ps: seq<Pair>)
    requires forall p | p in ps :: Writable(p)
    ensures AddLines(Lines(ps)) == Some(Overlaid(ps))
  {
    if ps != [] {
      var init, p := ps[..|ps| - 1], ps[|ps| - 1];
      assert p in ps;
      LinesRead(init);
      assert Lines(ps)[..|ps| - 1] == Lines(init);
      LineRead(Overlaid(init), p);
    }
  }

  /** Pairs written one to a line are read back, the last of each key. */
  lemma ExpandRoundTrip(ps: seq<Pair>)
    requires forall p | p in ps :: Writable(p)
    ensures AddLines(Split(Join(Lines(ps), '\n'), '\n')) == Some(Overlaid(ps))
  {
    LinesRead(ps);
    if ps == [] {
      assert Split("", '\n') == [""];
      assert [""][..0] == [];
      assert AddLines([""]) == AddLine(map[], "");
    } else {
      forall l | l in Lines(ps) ensures '\n' !in l {
        var i :| 0 <= i < |ps| && Lines(ps)[i] == l;
        assert Writable(ps[i]);
      }
      SplitJoin(Lines(ps), '\n');
    }
  }

  // ----- Blanks around a line -----

  predicate Blank(s: string) {
    forall c | c in s :: IsSpace(c)
  }

  /** Trimming takes away blanks at both ends, and all of them. */
  lemma TrimExactly(s: string) returns (a: string, b: string)
    ensures s == a + TrimSpace(s) + b && Blank(a) && Blank(b)
    ensures var t := TrimSpace(s);
      t != "" ==> !IsSpace(t[0]) && !IsSpace(t[|t| - 1])
  {
    hide IsSpace;
    a := TrimmedLeft(s);
    b := TrimmedRight(TrimLeft(s));
    var l, t := TrimLeft(s), TrimSpace(s);
    assert t != "" ==> t[0] == l[0];
  }

  lemma {:induction false} TrimmedLeft(s: string) returns (a: string)
    ensures s == a + TrimLeft(s) && Blank(a) && (TrimLeft(s) != "" ==> !IsSpace(TrimLeft(s)[0]))
    decreases s
  {
    hide IsSpace;
    a := "";
    if s != "" && IsSpace(s[0]) {
      a := TrimmedLeft(s[1..]);
      a := [s[0]] + a;
    }
  }

  lemma {:induction false} TrimmedRight(s: string) returns (b: string)
    ensures s == TrimRight(s) + b && Blank(b)
    ensures TrimRight(s) != "" ==> !IsSpace(TrimRight(s)[|TrimRight(s)| - 1])
    decreases s
  {
    hide IsSpace;
    b := "";
    if s != "" && IsSpace(s[|s| - 1]) {
      b := TrimmedRight(s[..|s| - 1]);
      b := b + [s[|s| - 1]];
    }
  }

  lemma {:induction false} TrimLeftBlanks(a: string, s: string)
    requires Blank(a)
    ensures TrimLeft(a + s) == TrimLeft(s)
    decreases a
  {
    hide IsSpace;
    if a == "" {
      assert a + s == s;
    } else {
      assert (a + s)[1..] == a[1..] + s && a[0] in a;
      TrimLeftBlanks(a[1..], s);
    }
  }

  lemma {:induction false} TrimRightBlanks(s: string, b: string)
    requires Blank(b)
    ensures TrimRight(s + b) == TrimRight(s)
    decreases b
  {
    hide IsSpace;
    if b == "" {
      assert s + b == s;
    } else {
      var n := |b| - 1;
      assert (s + b)[..|s| + n] == s + b[..n] && b[n] in b;
      TrimRightBlanks(s, b[..n]);
    }
  }

  /** A written pair with blanks around it is read as the same pair, and a line of blanks as none. */
  lemma BlanksIgnored(m: Pairs, a: string, p: Pair, b: string)
    requires Writable(p) && Blank(a) && Blank(b)
    ensures AddLine(m, a + Line(p) + b) == Some(m[p.key := p.value])
    ensures AddLine(m, a) == Some(m)
  {
    hide IsSpace;
    var l := Line(p);
    LineRead(m, p);
    assert a + l + b == a + (l + b);
    TrimLeftBlanks(a, l + b);
    LineStarts(p, b);
    TrimRightBlanks(l, b);
    LineStarts(p, "");
    assert l + "" == l;
    TrimLeftBlanks(a, "");
    assert a + "" == a;
  }

  lemma LineStarts(p: Pair, b: string)
    requires Writable(p)
    ensures TrimLeft(Line(p) + b) == Line(p) + b
  {
    assert (Line(p) + b)[0] == if p.key == "" then '=' else p.key[0];
  }
}
