/**
  The input reader of the dependency-graph drawer (`readInput` in
  CommonUtils/draw_dg.py). The input is a sequence of lines: blank lines and
  lines starting with `#` (after stripping) are skipped; the first remaining
  line lists the tokens; every later line is an arc `from type to`, where
  `from` and `to` name tokens by their text and optional `_<digits>` suffix
  and must each name exactly one token.

  `Read` is the reader as a function on values; `ReadInput` builds the
  `Token` and `Dep` objects and is proved to agree with it.
*/
module InputReader {
  import opened Wrappers
  import opened Strings
  import opened DepGraph
  import opened HorizontalLayout

  /** An arc as read: the position of its source, its type, the position of its target. */
  datatype Arc = Arc(from: nat, depType: string, to: nat)

  /** What has been read so far: the token words once the token line is seen, and the arcs. */
  datatype Reading = Reading(words: Option<seq<string>>, arcs: seq<Arc>)

  const Start := Reading(None, [])

  /** Every arc runs forwards between words of the token line. */
  predicate Consistent(st: Reading) {
    (st.arcs != [] ==> st.words.Some?) &&
    forall j :: 0 <= j < |st.arcs| ==> st.arcs[j].from <= st.arcs[j].to < |st.words.value|
  }

  /**
    A line the reader skips: blank once stripped, or a comment. (Stripping
    the left end is enough to tell; `SkippedStripped` says so.)
  */
  predicate Skipped(line: string) {
    var l := TrimLeft(line);
    l == [] || l[0] == '#'
  }

  /** `Skipped` is the test `readInput` makes on the stripped line. */
  lemma SkippedStripped(line: string)
    ensures Skipped(line) <==> Strip(line) == [] || Strip(line)[0] == '#'
  {
    var l := TrimLeft(line);
    var r := Strip(line);
    assert r == TrimRight(l);
    TrimRightShape(l);
    if l != [] {
      assert r != [] && r[0] == l[0];
    }
  }

  /** The (text, spec) pair of every word. */
  function Specs(words: seq<string>): (r: seq<(string, Option<string>)>)
    ensures |r| == |words| && forall i :: 0 <= i < |words| ==> r[i] == TokSpec(words[i])
  {
    seq(|words|, i requires 0 <= i < |words| => TokSpec(words[i]))
  }

  /** The positions of `x` in `s`, in increasing order. */
  function Positions<T(==)>(s: seq<T>, x: T): (p: seq<nat>)
    ensures forall k :: 0 <= k < |p| ==> p[k] < |s| && s[p[k]] == x
    ensures forall k, l :: 0 <= k < l < |p| ==> p[k] < p[l]
  {
    if s == [] then []
    else Positions(s[..|s| - 1], x) + (if s[|s| - 1] == x then [|s| - 1] else [])
  }

  /** Every position of `x` is listed. */
  lemma {:induction false} PositionsComplete<T>(s: seq<T>, x: T, i: nat)
    requires i < |s| && s[i] == x
    ensures i in Positions(s, x)
  {
    if i < |s| - 1 {
      PositionsComplete(s[..|s| - 1], x, i);
    }
  }

  /** A value with one position occurs nowhere else. */
  lemma OnlyPosition<T>(s: seq<T>, x: T, i: nat)
    requires |Positions(s, x)| == 1 && i < |s| && s[i] == x
    ensures i == Positions(s, x)[0]
  {
    PositionsComplete(s, x, i);
  }

  /**
    A reference such as `dog` or `dog_2` resolved against the token words:
    it must match exactly one of them, comparing text and spec.
  */
  function Resolve(words: seq<string>, ref: string): (r: Result<nat, DgError>)
    ensures r.Success? ==> r.value < |words| && TokSpec(words[r.value]) == TokSpec(ref)
    ensures r.Success? ==> forall i :: 0 <= i < |words| && TokSpec(words[i]) == TokSpec(ref) ==> i == r.value
    ensures r.Failure? ==> r.error == UnresolvedReference(ref, |Positions(Specs(words), TokSpec(ref))|)
    ensures r.Failure? ==> r.error.candidates != 1
  {
    var p := Positions(Specs(words), TokSpec(ref));
    if |p| != 1 then Failure(UnresolvedReference(ref, |p|))
    else
      assert forall i :: 0 <= i < |words| && TokSpec(words[i]) == TokSpec(ref) ==> i == p[0] by {
        forall i | 0 <= i < |words| && TokSpec(words[i]) == TokSpec(ref) ensures i == p[0] {
          OnlyPosition(Specs(words), TokSpec(ref), i);
        }
      }
      Success(p[0])
  }

  /** A reference that no word, or several words, match is refused. */
  lemma ResolveFails(words: seq<string>, ref: string)
    ensures Resolve(words, ref).Failure? <==>
      (forall i :: 0 <= i < |words| ==> TokSpec(words[i]) != TokSpec(ref)) ||
      exists i, j :: 0 <= i < j < |words| && TokSpec(words[i]) == TokSpec(ref) && TokSpec(words[j]) == TokSpec(ref)
  {
    var p := Positions(Specs(words), TokSpec(ref));
    if |p| == 0 {
      forall i | 0 <= i < |words| ensures TokSpec(words[i]) != TokSpec(ref) {
        if TokSpec(words[i]) == TokSpec(ref) {
          PositionsComplete(Specs(words), TokSpec(ref), i);
        }
      }
    } else if |p| >= 2 {
      assert TokSpec(words[p[0]]) == TokSpec(ref) && TokSpec(words[p[1]]) == TokSpec(ref);
    } else {
      assert TokSpec(words[p[0]]) == TokSpec(ref);
    }
  }

  /** The reading with one more arc, which runs forwards between words of the token line. */
  function AddArc(st: Reading, arc: Arc): (r: Reading)
    requires Consistent(st) && st.words.Some? && arc.from <= arc.to < |st.words.value|
    ensures Consistent(r) && r.words == st.words && r.arcs == st.arcs + [arc]
    ensures r.arcs[..|st.arcs|] == st.arcs
  {
    var arcs := st.arcs + [arc];
    assert arcs[..|st.arcs|] == st.arcs;
    Reading(st.words, arcs)
  }

  /**
    A dependency line `from type to` (already stripped) against the token
    words: exactly three fields, both references resolved, and the arc
    running forwards. Equal positions are accepted.
  */
  function ParseArc(words: seq<string>, l: string): (r: Result<Arc, DgError>)
    ensures r.Success? ==> r.value.from <= r.value.to < |words|
  {
    var ws := Words(l);
    if |ws| != 3 then Failure(MalformedLine(l))
    else
      match Resolve(words, ws[0])
      case Failure(e) => Failure(e)
      case Success(a) =>
        match Resolve(words, ws[2])
        case Failure(e) => Failure(e)
        case Success(b) =>
          if a > b then Failure(ArcOrder(a, b)) else Success(Arc(a, ws[1], b))
  }

  /** One line of input read after the lines before it. */
  function ReadLine(st: Reading, line: string): (r: Result<Reading, DgError>)
    requires Consistent(st)
    ensures r.Success? ==> Consistent(r.value)
  {
    if Skipped(line) then Success(st)
    else if st.words.None? then Success(Reading(Some(Words(Strip(line))), st.arcs))
    else
      match ParseArc(st.words.value, Strip(line))
      case Failure(e) => Failure(e)
      case Success(arc) => Success(AddArc(st, arc))
  }

  /** A skipped line leaves the reading as it is; the first other line gives the token words. */
  lemma ReadLineTokens(st: Reading, line: string)
    requires Consistent(st)
    ensures Skipped(line) ==> ReadLine(st, line) == Success(st)
    ensures !Skipped(line) && st.words.None? ==> ReadLine(st, line) == Success(Reading(Some(Words(Strip(line))), st.arcs))
  {
  }

  /**
    A later line must have exactly three fields; every error is one of a
    malformed line, a reference that does not name exactly one token, or an
    arc that runs backwards.
  */
  lemma ReadLineErrors(st: Reading, line: string)
    requires Consistent(st)
    ensures !Skipped(line) && st.words.Some? && |Words(Strip(line))| != 3 ==>
      ReadLine(st, line) == Failure(MalformedLine(Strip(line)))
    ensures var r := ReadLine(st, line);
      r.Failure? ==>
        || r.error.MalformedLine?
        || (r.error.UnresolvedReference? && r.error.candidates != 1)
        || (r.error.ArcOrder? && r.error.from > r.error.to)
  {
    if !Skipped(line) && st.words.Some? {
      var l := Strip(line);
      var ws := Words(l);
      var r := ParseArc(st.words.value, l);
      assert ReadLine(st, line) == if r.Failure? then Failure(r.error) else Success(AddArc(st, r.value));
      if |ws| == 3 {
        var ra := Resolve(st.words.value, ws[0]);
        var rb := Resolve(st.words.value, ws[2]);
        if ra.Failure? {
          assert r == Failure(ra.error);
        } else if rb.Failure? {
          assert r == Failure(rb.error);
        }
      }
    }
  }

  /** A later line that is read adds one arc: its references resolved, its type kept. */
  lemma ReadLineArc(st: Reading, line: string)
    requires Consistent(st) && !Skipped(line) && st.words.Some? && ReadLine(st, line).Success?
    ensures var r, ws := ReadLine(st, line).value, Words(Strip(line));
      && |ws| == 3 && r.words == st.words && |r.arcs| == |st.arcs| + 1
      && r.arcs[..|st.arcs|] == st.arcs
      && r.arcs[|st.arcs|].depType == ws[1]
      && Resolve(st.words.value, ws[0]) == Success(r.arcs[|st.arcs|].from)
      && Resolve(st.words.value, ws[2]) == Success(r.arcs[|st.arcs|].to)
  {
    var l := Strip(line);
    var ws := Words(l);
    var r := ParseArc(st.words.value, l);
    assert r.Success? && ReadLine(st, line) == Success(AddArc(st, r.value));
    var ra := Resolve(st.words.value, ws[0]);
    var rb := Resolve(st.words.value, ws[2]);
    assert |ws| == 3 && ra.Success? && rb.Success? && r.value == Arc(ra.value, ws[1], rb.value);
  }

  /** The lines read one by one from state `st`; the first error ends the reading. */
  function ReadFrom(st: Reading, lines: seq<string>): (r: Result<Reading, DgError>)
    requires Consistent(st)
    ensures r.Success? ==> Consistent(r.value)
    decreases |lines|
  {
    if lines == [] then Success(st)
    else
      match ReadLine(st, lines[0])
      case Failure(e) => Failure(e)
      case Success(next) => ReadFrom(next, lines[1..])
  }

  /**
    `readInput` on values: the token words and the arcs, or the first error;
    an input without a single arc is refused.
  */
  function Read(lines: seq<string>): (r: Result<(seq<string>, seq<Arc>), DgError>)
  {
    match ReadFrom(Start, lines)
    case Failure(e) => Failure(e)
    case Success(st) => if st.arcs == [] then Failure(NoArcs) else Success((st.words.value, st.arcs))
  }

  /** A successful reading has at least one arc, and every arc runs forwards between words. */
  lemma ReadArcs(lines: seq<string>)
    requires Read(lines).Success?
    ensures var arcs := Read(lines).value.1;
      arcs != [] && forall j :: 0 <= j < |arcs| ==> arcs[j].from <= arcs[j].to < |Read(lines).value.0|
  {
  }

  /** Reading `a + b` is reading `a`, then `b` from where `a` left off. */
  lemma {:induction false} ReadFromAppend(st: Reading, a: seq<string>, b: seq<string>)
    requires Consistent(st)
    ensures ReadFrom(st, a + b) ==
      match ReadFrom(st, a)
      case Failure(e) => Failure(e)
      case Success(next) => ReadFrom(next, b)
    decreases |a|
  {
    if a == [] {
      assert a + b == b;
    } else {
      assert (a + b)[0] == a[0] && (a + b)[1..] == a[1..] + b;
      var r := ReadLine(st, a[0]);
      assert ReadFrom(st, a + b) == if r.Failure? then Failure(r.error) else ReadFrom(r.value, a[1..] + b);
      assert ReadFrom(st, a) == if r.Failure? then Failure(r.error) else ReadFrom(r.value, a[1..]);
      if r.Success? {
        ReadFromAppend(r.value, a[1..], b);
      }
    }
  }

  /** A blank or comment line changes nothing, wherever it stands. */
  lemma SkippedLineIgnored(lines: seq<string>, i: nat)
    requires i < |lines| && Skipped(lines[i])
    ensures Read(lines) == Read(lines[..i] + lines[i + 1..])
  {
    Around(lines, i);
    SkippedAnywhere(Start, lines[..i], lines[i], lines[i + 1..]);
  }

  /** A sequence is what comes before position `i`, the element there, and what follows. */
  lemma Around<T>(s: seq<T>, i: nat)
    requires i < |s|
    ensures s == s[..i] + [s[i]] + s[i + 1..]
  {
  }

  lemma {:induction false} SkippedAnywhere(st: Reading, a: seq<string>, line: string, b: seq<string>)
    requires Consistent(st) && Skipped(line)
    ensures ReadFrom(st, a + [line] + b) == ReadFrom(st, a + b)
    decreases |a|
  {
    if a == [] {
      assert a + [line] + b == [line] + b && a + b == b;
      SkipStep(st, line, b);
    } else {
      var s, s' := a + [line] + b, a + b;
      assert s[0] == a[0] && s[1..] == a[1..] + [line] + b;
      assert s'[0] == a[0] && s'[1..] == a[1..] + b;
      ReadFromStep(st, s);
      ReadFromStep(st, s');
      var r := ReadLine(st, a[0]);
      if r.Success? {
        SkippedAnywhere(r.value, a[1..], line, b);
      }
    }
  }

  lemma SkipStep(st: Reading, line: string, rest: seq<string>)
    requires Consistent(st) && Skipped(line)
    ensures ReadFrom(st, [line] + rest) == ReadFrom(st, rest)
  {
    ReadLineTokens(st, line);
    assert ([line] + rest)[0] == line && ([line] + rest)[1..] == rest;
    ReadFromStep(st, [line] + rest);
  }

  /** Once the lines up to some point fail, the whole input fails with that error. */
  lemma FirstErrorDecides(lines: seq<string>, i: nat, e: DgError)
    requires i <= |lines| && ReadFrom(Start, lines[..i]) == Failure(e)
    ensures Read(lines) == Failure(e)
  {
    assert lines == lines[..i] + lines[i..];
    ReadFromAppend(Start, lines[..i], lines[i..]);
  }

  /** Reading lines is reading the first one, then the rest. */
  lemma ReadFromStep(st: Reading, lines: seq<string>)
    requires Consistent(st) && lines != []
    ensures var r := ReadLine(st, lines[0]);
      ReadFrom(st, lines) == if r.Failure? then Failure(r.error) else ReadFrom(r.value, lines[1..])
  {
  }

  /**
    The token line is the first line that is not skipped: a successful
    reading has its words as tokens.
  */
  lemma TokenLineFirst(lines: seq<string>, i: nat)
    requires i < |lines| && !Skipped(lines[i])
    requires forall k :: 0 <= k < i ==> Skipped(lines[k])
    requires Read(lines).Success?
    ensures Read(lines).value.0 == Words(Strip(lines[i]))
  {
    var rest := lines[i + 1..];
    SkippedPrefix(lines[..i]);
    assert lines == lines[..i] + ([lines[i]] + rest);
    ReadFromAppend(Start, lines[..i], [lines[i]] + rest);
    var st := Reading(Some(Words(Strip(lines[i]))), []);
    ReadLineTokens(Start, lines[i]);
    assert ([lines[i]] + rest)[0] == lines[i] && ([lines[i]] + rest)[1..] == rest;
    assert ReadFrom(Start, [lines[i]] + rest) == ReadFrom(st, rest);
    WordsKept(st, rest);
  }

  lemma {:induction false} SkippedPrefix(lines: seq<string>)
    requires forall k :: 0 <= k < |lines| ==> Skipped(lines[k])
    ensures ReadFrom(Start, lines) == Success(Start)
  {
    if lines != [] {
      ReadLineTokens(Start, lines[0]);
      assert ReadFrom(Start, lines) == ReadFrom(Start, lines[1..]);
      SkippedPrefix(lines[1..]);
    }
  }

  /** Once the token line is read, the words never change. */
  lemma {:induction false} WordsKept(st: Reading, lines: seq<string>)
    requires Consistent(st) && st.words.Some?
    ensures ReadFrom(st, lines).Success? ==> ReadFrom(st, lines).value.words == st.words
    decreases |lines|
  {
    if lines != [] {
      var r := ReadLine(st, lines[0]);
      assert ReadFrom(st, lines) == if r.Failure? then Failure(r.error) else ReadFrom(r.value, lines[1..]);
      if r.Success? {
        ReadLineTokens(st, lines[0]);
        if !Skipped(lines[0]) {
          ReadLineArc(st, lines[0]);
        }
        WordsKept(r.value, lines[1..]);
      }
    }
  }

  // ------------------------------------------------------------ the objects

  /** The (text, spec) pair of every token. */
  function TokenSpecs(tokens: seq<Token>): (r: seq<(string, Option<string>)>)
    ensures |r| == |tokens| && forall i :: 0 <= i < |tokens| ==> r[i] == (tokens[i].txt, tokens[i].spec)
  {
    seq(|tokens|, i requires 0 <= i < |tokens| => (tokens[i].txt, tokens[i].spec))
  }

  /** The tokens are those of the words, at their positions. */
  predicate TokensOf(tokens: seq<Token>, words: seq<string>) {
    |tokens| == |words| &&
    forall i :: 0 <= i < |tokens| ==> tokens[i].pos == i && (tokens[i].txt, tokens[i].spec) == TokSpec(words[i])
  }

  /** The arc objects are those of the arcs read, between the tokens. */
  predicate DepsOf(deps: seq<Dep>, tokens: seq<Token>, arcs: seq<Arc>) {
    |deps| == |arcs| &&
    forall j :: 0 <= j < |deps| ==>
      arcs[j].from < |tokens| && arcs[j].to < |tokens| &&
      deps[j].tok1 == tokens[arcs[j].from] && deps[j].depType == arcs[j].depType && deps[j].tok2 == tokens[arcs[j].to]
  }

  /** The objects built for a reading. */
  predicate Mirrors(tokens: seq<Token>, deps: seq<Dep>, st: Reading) {
    (if st.words.Some? then TokensOf(tokens, st.words.value) else tokens == []) &&
    DepsOf(deps, tokens, st.arcs)
  }

  /** The objects `readInput` returns are what `layout` needs. */
  lemma ReadyForLayout(tokens: seq<Token>, deps: seq<Dep>, words: seq<string>, arcs: seq<Arc>)
    requires TokensOf(tokens, words) && DepsOf(deps, tokens, arcs)
    requires forall j :: 0 <= j < |arcs| ==> arcs[j].from <= arcs[j].to
    ensures Indexed(tokens) && Attached(deps, tokens)
  {
    forall d | d in deps
      ensures d.tok1.pos <= d.tok2.pos < |tokens| && tokens[d.tok1.pos] == d.tok1 && tokens[d.tok2.pos] == d.tok2
    {
      var j :| 0 <= j < |deps| && deps[j] == d;
      assert d.tok1 == tokens[arcs[j].from] && d.tok2 == tokens[arcs[j].to];
    }
  }

  /** The list comprehension collecting the tokens a reference matches. */
  method Matching(tokens: seq<Token>, t: string, s: Option<string>) returns (m: seq<Token>)
    ensures var p := Positions(TokenSpecs(tokens), (t, s));
      |m| == |p| && forall k :: 0 <= k < |m| ==> m[k] == tokens[p[k]]
  {
    m := [];
    var i := 0;
    while i < |tokens|
      invariant 0 <= i <= |tokens|
      invariant var p := Positions(TokenSpecs(tokens)[..i], (t, s));
        |m| == |p| && forall k :: 0 <= k < |m| ==> m[k] == tokens[p[k]]
    {
      assert TokenSpecs(tokens)[..i + 1][..i] == TokenSpecs(tokens)[..i];
      if tokens[i].Matches(t, s) {
        m := m + [tokens[i]];
      }
      i := i + 1;
    }
    assert TokenSpecs(tokens)[..i] == TokenSpecs(tokens);
  }

  /** The token objects of the token line, one per word. */
  method MakeTokens(words: seq<string>) returns (tokens: seq<Token>)
    ensures TokensOf(tokens, words)
    ensures forall i :: 0 <= i < |tokens| ==> fresh(tokens[i])
  {
    tokens := [];
    var idx := 0;
    while idx < |words|
      invariant 0 <= idx <= |words|
      invariant TokensOf(tokens, words[..idx])
      invariant forall i :: 0 <= i < |tokens| ==> fresh(tokens[i])
    {
      var tok := new Token(words[idx], idx);
      tokens := tokens + [tok];
      idx := idx + 1;
    }
    assert words[..idx] == words;
  }

  /** The tokens a reference matches are the words `Resolve` looks among. */
  lemma MatchingResolves(tokens: seq<Token>, words: seq<string>, ref: string, m: seq<Token>)
    requires TokensOf(tokens, words)
    requires var p := Positions(TokenSpecs(tokens), TokSpec(ref));
      |m| == |p| && forall k :: 0 <= k < |m| ==> m[k] == tokens[p[k]]
    ensures |m| != 1 ==> Resolve(words, ref) == Failure(UnresolvedReference(ref, |m|))
    ensures |m| == 1 ==> Resolve(words, ref).Success? && m[0] == tokens[Resolve(words, ref).value]
  {
    assert TokenSpecs(tokens) == Specs(words);
  }

  /**
    The tokens an arc line names and the `Dep` built between them; the
    outcome is the one `ParseArc` gives.
  */
  method ReadArcLine(tokens: seq<Token>, ghost words: seq<string>, l: string) returns (res: Result<Dep, DgError>)
    requires TokensOf(tokens, words)
    ensures res.Failure? <==> ParseArc(words, l).Failure?
    ensures res.Failure? ==> res.error == ParseArc(words, l).error
    ensures res.Success? ==>
      var a := ParseArc(words, l).value;
      && fresh(res.value)
      && res.value.tok1 == tokens[a.from] && res.value.depType == a.depType && res.value.tok2 == tokens[a.to]
  {
    var ws := Words(l);
    if |ws| != 3 {
      return Failure(MalformedLine(l));
    }
    var (t1txt, t1spec) := TokSpec(ws[0]);
    var matching1 := Matching(tokens, t1txt, t1spec);
    MatchingResolves(tokens, words, ws[0], matching1);
    if |matching1| != 1 {
      return Failure(UnresolvedReference(ws[0], |matching1|));
    }
    var (t2txt, t2spec) := TokSpec(ws[2]);
    var matching2 := Matching(tokens, t2txt, t2spec);
    MatchingResolves(tokens, words, ws[2], matching2);
    if |matching2| != 1 {
      return Failure(UnresolvedReference(ws[2], |matching2|));
    }
    res := Dep.Make(matching1[0], matching2[0], ws[1]);
  }

  /** The stripped line, and whether it is blank or a comment. */
  method StripLine(raw: string) returns (line: string, skip: bool)
    ensures line == Strip(raw) && skip == Skipped(raw)
  {
    line := Strip(raw);
    SkippedStripped(raw);
    skip := line == [] || line[0] == '#';
  }

  /**
    The body of `readInput`'s loop: one line read into the objects built so
    far, with the outcome `ReadLine` gives.
  */
  method ReadInputLine(tokensRead: bool, tokens: seq<Token>, deps: seq<Dep>, ghost st: Reading, raw: string)
    returns (read: bool, r: Result<(seq<Token>, seq<Dep>), DgError>, ghost st': Reading)
    requires Consistent(st) && tokensRead == st.words.Some? && Mirrors(tokens, deps, st)
    requires forall a, b :: 0 <= a < b < |deps| ==> deps[a] != deps[b]
    ensures ReadLine(st, raw) == if r.Failure? then Failure(r.error) else Success(st')
    ensures r.Success? ==> Consistent(st') && read == st'.words.Some? && Mirrors(r.value.0, r.value.1, st')
    ensures r.Success? ==> forall k :: 0 <= k < |r.value.0| ==> r.value.0[k] in tokens || fresh(r.value.0[k])
    ensures r.Success? ==> forall j :: 0 <= j < |r.value.1| ==> r.value.1[j] in deps || fresh(r.value.1[j])
    ensures r.Success? ==> forall a, b :: 0 <= a < b < |r.value.1| ==> r.value.1[a] != r.value.1[b]
  {
    ReadLineTokens(st, raw);
    var line, skip := StripLine(raw);
    read := true;
    st' := st;
    if skip {
      return tokensRead, Success((tokens, deps)), st;
    }
    if !tokensRead {
      var made := MakeTokens(Words(line));
      return true, Success((made, deps)), Reading(Some(Words(line)), st.arcs);
    }
    ReadLineDep(st, raw);
    var more := ReadDepLine(tokens, deps, st, line);
    if more.Failure? {
      return true, Failure(more.error), st;
    }
    r := Success((tokens, more.value));
    st' := AddArc(st, ParseArc(st.words.value, line).value);
  }

  /** A dependency line read into the arc objects built so far. */
  method ReadDepLine(tokens: seq<Token>, deps: seq<Dep>, ghost st: Reading, line: string)
    returns (r: Result<seq<Dep>, DgError>)
    requires Consistent(st) && st.words.Some? && Mirrors(tokens, deps, st)
    requires forall a, b :: 0 <= a < b < |deps| ==> deps[a] != deps[b]
    ensures var arc := ParseArc(st.words.value, line);
      && (r.Failure? <==> arc.Failure?)
      && (r.Failure? ==> r.error == arc.error)
      && (r.Success? ==> DepsOf(r.value, tokens, st.arcs + [arc.value]))
    ensures r.Success? ==> forall j :: 0 <= j < |r.value| ==> r.value[j] in deps || fresh(r.value[j])
    ensures r.Success? ==> forall a, b :: 0 <= a < b < |r.value| ==> r.value[a] != r.value[b]
  {
    var made := ReadArcLine(tokens, st.words.value, line);
    if made.Failure? {
      return Failure(made.error);
    }
    ghost var arc := ParseArc(st.words.value, line).value;
    AppendDep(deps, made.value, tokens, st.arcs, arc);
    AppendDistinct(deps, made.value);
    r := Success(deps + [made.value]);
  }

  /** A dependency line, read as `ReadLine` reads it. */
  lemma ReadLineDep(st: Reading, raw: string)
    requires Consistent(st) && st.words.Some? && !Skipped(raw)
    ensures var arc := ParseArc(st.words.value, Strip(raw));
      ReadLine(st, raw) == if arc.Failure? then Failure(arc.error) else Success(AddArc(st, arc.value))
  {
  }

  /**
    `readInput`: the token objects and the arc objects of the input, built
    exactly as `Read` describes, or the error `Read` gives.
  */
  method ReadInput(lines: seq<string>) returns (r: Result<(seq<Token>, seq<Dep>), DgError>)
    ensures r.Failure? <==> Read(lines).Failure?
    ensures r.Failure? ==> r.error == Read(lines).error
    ensures r.Success? ==> TokensOf(r.value.0, Read(lines).value.0)
    ensures r.Success? ==> DepsOf(r.value.1, r.value.0, Read(lines).value.1)
    ensures r.Success? ==> forall i :: 0 <= i < |r.value.0| ==> fresh(r.value.0[i])
    ensures r.Success? ==> forall j :: 0 <= j < |r.value.1| ==> fresh(r.value.1[j])
    ensures r.Success? ==> forall i, j :: 0 <= i < j < |r.value.1| ==> r.value.1[i] != r.value.1[j]
  {
    var tokens: seq<Token> := [];
    var deps: seq<Dep> := [];
    var tokensRead := false;
    ghost var st := Start;
    var i := 0;
    while i < |lines|
      invariant 0 <= i <= |lines|
      invariant Consistent(st) && ReadFrom(Start, lines) == ReadFrom(st, lines[i..])
      invariant tokensRead == st.words.Some? && Mirrors(tokens, deps, st)
      invariant forall k :: 0 <= k < |tokens| ==> fresh(tokens[k])
      invariant forall j :: 0 <= j < |deps| ==> fresh(deps[j])
      invariant forall a, b :: 0 <= a < b < |deps| ==> deps[a] != deps[b]
    {
      ReadFromRest(st, lines, i);
      var read, step, next := ReadInputLine(tokensRead, tokens, deps, st, lines[i]);
      if step.Failure? {
        return Failure(step.error);
      }
      st := next;
      tokens, deps := step.value.0, step.value.1;
      tokensRead := read;
      i := i + 1;
    }
    assert lines[i..] == [];
    if |deps| == 0 {
      return Failure(NoArcs);
    }
    r := Success((tokens, deps));
  }

  /** Reading the lines from `i` on is reading line `i`, then the lines after it. */
  lemma ReadFromRest(st: Reading, lines: seq<string>, i: nat)
    requires Consistent(st) && i < |lines|
    ensures var r := ReadLine(st, lines[i]);
      ReadFrom(st, lines[i..]) == if r.Failure? then Failure(r.error) else ReadFrom(r.value, lines[i + 1..])
  {
    assert lines[i..][0] == lines[i] && lines[i..][1..] == lines[i + 1..];
    ReadFromStep(st, lines[i..]);
  }

  /** A new object keeps the objects pairwise distinct. */
  lemma AppendDistinct<T>(s: seq<T>, x: T)
    requires forall a, b :: 0 <= a < b < |s| ==> s[a] != s[b]
    requires x !in s
    ensures forall a, b :: 0 <= a < b < |s + [x]| ==> (s + [x])[a] != (s + [x])[b]
  {
  }

  /** One more arc object for one more arc. */
  lemma AppendDep(deps: seq<Dep>, d: Dep, tokens: seq<Token>, arcs: seq<Arc>, arc: Arc)
    requires DepsOf(deps, tokens, arcs)
    requires arc.from < |tokens| && arc.to < |tokens|
    requires d.tok1 == tokens[arc.from] && d.depType == arc.depType && d.tok2 == tokens[arc.to]
    ensures DepsOf(deps + [d], tokens, arcs + [arc])
  {
  }

}
