/**
  Tokens and dependency arcs of the dependency-graph drawer
  (CommonUtils/draw_dg.py): the drawing constants, the width estimate,
  the `_<digits>` token suffix, the two classes whose fields the layout
  fills in, the geometry of one arc and the label plaque drawn on it.
*/
module DepGraph {
  import opened Wrappers
  import opened Strings

  // ------------------------------------------------------------ SVGOptions

  const FontSize: int := 24
  const LabelFontSize: int := 20
  /** Horizontal space between neighbouring tokens. */
  const TokenSpace: int := 10
  /** Vertical distance between two arc levels. */
  const DepVertSpace: int := 20
  /** Room reserved on each side of an arc label for the rounded corner. */
  const MinDepPadding: int := 10

  /** The width estimate: characters times font size times 0.65. */
  function TextWidth(txt: string, fontSize: nat): (w: real)
    ensures w >= 0.0
    ensures fontSize > 0 && txt != [] ==> w > 0.0
  {
    (|txt| as real) * (fontSize as real) * 0.65
  }

  /** Python's `//2` on a float: the floor of half of `w`. */
  function Half(w: real): (h: real)
    ensures w / 2.0 - 1.0 < h <= w / 2.0
    ensures w >= 0.0 ==> h >= 0.0
  {
    (w / 2.0).Floor as real
  }

  /** Python's `int(r)` on a float: truncation toward zero. */
  function Trunc(r: real): (i: int)
    ensures r - 1.0 < i as real < r + 1.0
    ensures r >= 0.0 ==> 0 <= i && i as real <= r
    ensures r <= 0.0 ==> i <= 0 && r <= i as real
  {
    if r >= 0.0 then r.Floor else -((-r).Floor)
  }

  // ------------------------------------------------------------ tokSpec

  /** The index of the last occurrence of `c` in `s`. */
  function LastIndexOf(s: string, c: char): (r: Option<nat>)
    ensures r.Some? ==> r.value < |s| && s[r.value] == c && c !in s[r.value + 1..]
    ensures r.None? ==> c !in s
  {
    if s == [] then None
    else if s[|s| - 1] == c then Some(|s| - 1)
    else
      var r := LastIndexOf(s[..|s| - 1], c);
      assert s == s[..|s| - 1] + [s[|s| - 1]];
      r
  }

  /** Appending text without `c` does not move the last `c`. */
  lemma {:induction false} LastIndexOfAppend(a: string, b: string, c: char)
    requires c !in b
    ensures LastIndexOf(a + b, c) == LastIndexOf(a, c)
  {
    if b != [] {
      var ab := a + b;
      assert ab[..|ab| - 1] == a + b[..|b| - 1];
      LastIndexOfAppend(a, b[..|b| - 1], c);
    } else {
      assert a + b == a;
    }
  }

  /**
    `tokSpec`: the match of `^(.*)_([0-9]+)$` against a token text. `.`
    does not match a newline and `$` also matches before one final newline.
    The greedy `(.*)` makes the split fall on the last underscore.
  */
  function TokSpec(t: string): (r: (string, Option<string>))
    ensures r.1.Some? ==> r.1.value != [] && AllDigits(r.1.value)
    ensures r.1.Some? && (t == [] || t[|t| - 1] != '\n') ==> r.0 + "_" + r.1.value == t
    ensures r.1.None? ==> r.0 == t
  {
    var u := if t != [] && t[|t| - 1] == '\n' then t[..|t| - 1] else t;
    match LastIndexOf(u, '_')
    case Some(i) =>
      var digits := u[i + 1..];
      if '\n' !in u && digits != [] && AllDigits(digits) then
        assert u == u[..i] + "_" + digits;
        (u[..i], Some(digits))
      else (t, None)
    case None => (t, None)
  }

  /**
    The converse: a text made of a newline-free prefix, an underscore and
    decimal digits is split exactly there.
  */
  lemma TokSpecOfSuffixed(prefix: string, digits: string)
    requires '\n' !in prefix && digits != [] && AllDigits(digits)
    ensures TokSpec(prefix + "_" + digits) == (prefix, Some(digits))
  {
    var t := prefix + "_" + digits;
    assert t[|t| - 1] == digits[|digits| - 1];
    assert '_' !in digits;
    assert t[|prefix|] == '_';
    LastIndexOfAppend(prefix + "_", digits, '_');
    assert t == (prefix + "_") + digits;
    assert t[..|prefix|] == prefix && t[|prefix| + 1..] == digits;
    assert '\n' !in t by {
      forall k | 0 <= k < |t| ensures t[k] != '\n' {
        if k < |prefix| { assert t[k] == prefix[k]; }
        else if k > |prefix| { assert t[k] == digits[k - |prefix| - 1]; }
      }
    }
  }

  /** A text with no `_<digits>` suffix is returned whole, with no spec. */
  lemma TokSpecNoUnderscore(t: string)
    requires '_' !in t
    ensures TokSpec(t) == (t, None)
  {
  }

  // ------------------------------------------------------------ errors

  /** The errors `readInput` raises, and the one `max()` raises inside `depHeights`. */
  datatype DgError =
    | MalformedLine(line: string)
    | UnresolvedReference(reference: string, candidates: nat)
    | ArcOrder(from: nat, to: nat)
    | NoArcs
    | EmptyMaximum

  // ------------------------------------------------------------ geometry

  /** `self.param` of a dependency, as `computeParameters` fills it in. */
  datatype ArcParams = ArcParams(
    frox: real, y: int,
    c1bx: real, c1by: int, c1ex: real, c1ey: int,
    midx: real, midy: int,
    c2bx: real, c2by: int, c2ex: real, c2ey: int,
    tox: real,
    linebx: real, lineby: real, lineex: real, lineey: real)

  /**
    The curve of an arc from `frox` to `tox` at `height` over tokens whose
    baseline is `tokY`: lead-ins at both ends, a shelf `height` levels up.
  */
  function ArcGeometry(frox: real, tokY: int, tox: real, height: int): (p: ArcParams)
    ensures p.y == tokY - FontSize
    ensures p.midy == p.c1by == p.c2by == tokY - FontSize - height * DepVertSpace
    ensures p.c1bx == p.c1ex == p.linebx == frox && p.c2bx == p.c2ex == p.lineex == tox
    ensures frox <= tox ==> frox <= p.midx <= tox
    ensures height >= 0 ==> p.midy as real <= p.lineby <= p.y as real && p.lineey == p.lineby
  {
    var y := tokY - FontSize;
    var cy := y - height * DepVertSpace;
    var lineby := cy as real + ((y - cy) as real) * 0.6;
    ArcParams(frox, y, frox, cy, frox, cy, frox + Half(tox - frox), cy,
              tox, cy, tox, cy, tox, frox, lineby, tox, lineby)
  }

  /** A higher level puts the shelf further from the baseline. */
  lemma HigherLevelDrawnHigher(frox: real, tokY: int, tox: real, h1: int, h2: int)
    requires h1 < h2
    ensures ArcGeometry(frox, tokY, tox, h2).midy < ArcGeometry(frox, tokY, tox, h1).midy
    ensures ArcGeometry(frox, tokY, tox, h2).midy
         == ArcGeometry(frox, tokY, tox, h1).midy - (h2 - h1) * DepVertSpace
  {
  }

  // ------------------------------------------------------------ primitives

  /**
    The drawing primitives, as abstract records: a text, a filled
    rectangle, or a curve given by its control points.
  */
  datatype Prim =
    | Text(x: int, y: int, fontSize: int, content: string)
    | Rect(x: int, y: int, width: int, height: int)
    | Path(curve: ArcParams)

  /** The white plaque drawn under an arc label, and the label text (`labelSVG`). */
  function LabelPrims(p: ArcParams, depType: string): (r: (Prim, Prim))
    ensures r.0.Rect? && r.1.Text?
    // the plaque covers the label's estimated extent, centred on the arc
    ensures r.0.x as real < p.midx - TextWidth(depType, LabelFontSize) / 2.0
    ensures (r.0.x + r.0.width) as real > p.midx + TextWidth(depType, LabelFontSize) / 2.0
    // and sits on the shelf, so the curve passes under it
    ensures r.0.y < p.midy < r.0.y + r.0.height
    ensures r.1.content == depType && r.1.fontSize == LabelFontSize
    ensures p.midx - 1.0 < r.1.x as real < p.midx + 1.0 && r.1.y == p.midy + 6
  {
    var textW := TextWidth(depType, LabelFontSize);
    var textH := LabelFontSize;
    var txtY := p.midy + textH / 2 - 4;
    (Rect(Trunc(p.midx - textW / 2.0 - 1.0), Trunc((p.midy - 2) as real), Trunc(textW + 4.0), 4),
     Text(Trunc(p.midx), txtY, LabelFontSize, depType))
  }

  // ------------------------------------------------------------ Token

  /** A token; the layout fills in `x` and `y`. */
  class Token {
    const txt: string
    const spec: Option<string>
    const pos: nat
    var x: real
    var y: int

    constructor (text: string, pos: nat)
      ensures (txt, spec) == TokSpec(text) && this.pos == pos
      ensures x == 0.0 && y == 0
    {
      var split := TokSpec(text);
      txt, spec := split.0, split.1;
      this.pos := pos;
      x, y := 0.0, 0;
    }

    /** `matches`: exact comparison of text and spec. */
    predicate Matches(t: string, s: Option<string>)
    {
      txt == t && spec == s
    }

    /** The estimated width of the token's text (without its spec suffix). */
    function Width(): (w: real)
      ensures w >= 0.0
    {
      TextWidth(txt, FontSize)
    }

    /** The token's text primitive (`toSVG`). */
    function ToPrim(): (p: Prim)
      reads this
      ensures p.Text? && p.content == txt && p.fontSize == FontSize && p.y == y
      ensures x - 1.0 < p.x as real < x + 1.0
    {
      Text(Trunc(x), y, FontSize, txt)
    }
  }

  // ------------------------------------------------------------ Dep

  /** A dependency arc from `tok1` to `tok2`; the layout fills in `height` and `param`. */
  class Dep {
    const tok1: Token
    const tok2: Token
    const depType: string
    var height: int
    var param: Option<ArcParams>

    constructor (tok1: Token, tok2: Token, depType: string)
      requires tok1.pos <= tok2.pos
      ensures this.tok1 == tok1 && this.tok2 == tok2 && this.depType == depType
      ensures height == 0 && param == None
    {
      this.tok1, this.tok2, this.depType := tok1, tok2, depType;
      height, param := 0, None;
    }

    /**
      `Dep.__init__`: an arc whose source comes after its target is refused.
      Equal positions are let through.
    */
    static method Make(tok1: Token, tok2: Token, depType: string) returns (r: Result<Dep, DgError>)
      ensures r.Failure? <==> tok1.pos > tok2.pos
      ensures r.Failure? ==> r.error == ArcOrder(tok1.pos, tok2.pos)
      ensures r.Success? ==> fresh(r.value) && r.value.tok1 == tok1 && r.value.tok2 == tok2
      ensures r.Success? ==> r.value.depType == depType && r.value.height == 0 && r.value.param == None
    {
      if tok1.pos > tok2.pos {
        return Failure(ArcOrder(tok1.pos, tok2.pos));
      }
      var d := new Dep(tok1, tok2, depType);
      return Success(d);
    }

    /** `minWidth`: depType width plus padding on both sides. */
    function MinWidth(): (w: real)
      ensures w >= 2.0 * MinDepPadding as real
      ensures w == TextWidth(depType, LabelFontSize) + 2.0 * MinDepPadding as real
    {
      TextWidth(depType, LabelFontSize) + (2 * MinDepPadding) as real
    }

    /** `computeParameters`: the arc's curve from the current token coordinates. */
    method ComputeParameters()
      modifies this
      ensures param == Some(ArcGeometry(tok1.x, tok1.y, tok2.x, height))
      ensures height == old(height)
    {
      param := Some(ArcGeometry(tok1.x, tok1.y, tok2.x, height));
    }
  }
}
