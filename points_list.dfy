/**
 * `SvgExtentions.StringToPointsList`: the scan over the token array that turns path-data
 * numbers into absolute points, following command letters given before, inside or after a
 * number, and re-splitting a token in place when a letter sits inside it.
 */
module PointsList {
  import opened Wrappers
  import opened Geometry
  import opened PathTokens

  /**
   * The library calls the scan depends on: `float.TryParse` (culture-dependent, `None` when it
   * fails), `char.IsLetter` and `char.IsUpper`.
   */
  datatype Lib = Lib(parse: string -> Option<real>, isLetter: char -> bool, isUpper: char -> bool)

  /** The scan's local state: the points so far, the current position, `isX` and `upperCase`. */
  datatype Scan = Scan(points: seq<Vec>, xPos: real, yPos: real, isX: bool, upperCase: bool)

  /** No points, position (0,0), expecting an x coordinate, absolute (upper-case) mode. */
  const Start := Scan([], 0.0, 0.0, true, true)

  /** The effect of one number: a coordinate, made relative to the position in lower-case mode. */
  function Number(st: Scan, v: real): (r: Scan)
    ensures r.isX == !st.isX && r.upperCase == st.upperCase
    ensures st.isX ==> r.xPos == (if st.upperCase then v else st.xPos + v) && r.yPos == st.yPos && r.points == st.points
    ensures !st.isX ==> r.yPos == (if st.upperCase then v else st.yPos + v) && r.xPos == st.xPos
                        && r.points == st.points + [Vec(r.xPos, r.yPos)]
  {
    var value := if st.upperCase then v else v + (if st.isX then st.xPos else st.yPos);
    if st.isX then st.(xPos := value, isX := false)
    else Scan(st.points + [Vec(st.xPos, value)], st.xPos, value, true, st.upperCase)
  }

  predicate NoLetter(lib: Lib, t: string)
  {
    forall c :: c in t ==> !lib.isLetter(c)
  }

  /** The position of the first letter of `t`, if it has one: the `for n` loop of the scan. */
  function FirstLetter(lib: Lib, t: string): (r: Option<nat>)
    ensures r.None? <==> NoLetter(lib, t)
    ensures r.Some? ==> r.value < |t| && lib.isLetter(t[r.value]) && NoLetter(lib, t[..r.value])
  {
    if t == [] then None
    else if lib.isLetter(t[0]) then Some(0)
    else match FirstLetter(lib, t[1..])
      case None => None
      case Some(n) =>
        assert t[..n + 1] == [t[0]] + t[1..][..n];
        Some(n + 1)
  }

  /** The weight of a token list: its characters plus its entries. */
  function Weight(ts: seq<string>): nat
  {
    if ts == [] then 0 else |ts[0]| + 1 + Weight(ts[1..])
  }

  /**
   * One visit of `pointArray[i]` from the label `doAgain`, with `rest` the entries after it:
   * the entries after it once the visit ends and the new state, or `Throws` when
   * `char.IsLetter` is asked about an empty token. A leading letter sets the mode and is
   * dropped; when the remainder parses the visit starts again on it.
   */
  function TokenStep(lib: Lib, tok: string, rest: seq<string>, st: Scan): (r: Result<(seq<string>, Scan)>)
    ensures r.Ok? ==> r.value.0 == rest || (|r.value.0| == |rest| + 1 && r.value.0[1..] == rest && |r.value.0[0]| < |tok|)
    ensures r.Ok? && NoLetter(lib, tok) ==> r.value.0 == rest
    decreases |tok|, 1
  {
    var t := Trim(tok);
    TrimSlice(tok);
    match lib.parse(t)
    case Some(v) => Ok((rest, Number(st, v)))
    case None =>
      if |t| == 0 then Throws
      else if lib.isLetter(t[0]) then
        var st1 := st.(upperCase := lib.isUpper(t[0]));
        if lib.parse(t[1..]).Some? then TokenStep(lib, t[1..], rest, st1)
        else Letters(lib, t[1..], rest, st1)
      else Letters(lib, t, rest, st)
  }

  /**
   * The `for n` loop over a token that did not parse: the first letter sets the mode; a last
   * letter is cut off, a letter inside the token leaves the part from the letter on as the
   * next entry, and the visit starts again on the part before the letter. A token without
   * letters is passed over.
   */
  function Letters(lib: Lib, t: string, rest: seq<string>, st: Scan): (r: Result<(seq<string>, Scan)>)
    ensures r.Ok? ==> r.value.0 == rest || (|r.value.0| == |rest| + 1 && r.value.0[1..] == rest && |r.value.0[0]| <= |t|
                                            && (|t| > 0 && !lib.isLetter(t[0]) ==> |r.value.0[0]| < |t|))
    ensures r.Ok? && NoLetter(lib, t) ==> r.value.0 == rest
    decreases |t|, 0
  {
    match FirstLetter(lib, t)
    case None => Ok((rest, st))
    case Some(n) =>
      var st1 := st.(upperCase := lib.isUpper(t[n]));
      if n == |t| - 1 then TokenStep(lib, t[..n], rest, st1)
      else TokenStep(lib, t[..n], [t[n..]] + rest, st1)
  }

  /** The loop over the token array from entry `i` on: the final state, or `Throws`. */
  function Tokens(lib: Lib, ts: seq<string>, st: Scan): Result<Scan>
    decreases Weight(ts)
  {
    if ts == [] then Ok(st)
    else match TokenStep(lib, ts[0], ts[1..], st)
      case Throws => Throws
      case Ok((rest, st')) =>
        assert Weight(rest) < Weight(ts) by {
          if rest != ts[1..] {
            assert rest[1..] == ts[1..];
          }
        }
        Tokens(lib, rest, st')
  }

  /** What `StringToPointsList` returns for an attribute value. */
  function PointsOf(lib: Lib, value: string): Result<seq<Vec>>
  {
    match Tokens(lib, Preprocess(value), Start)
    case Ok(st) => Ok(st.points)
    case Throws => Throws
  }

  // ----- the in-place scan -----

  /** `Array.Resize(ref a, a.Length + 1)`: a fresh copy with one more (empty) entry. */
  method Resize(a: array<string>) returns (b: array<string>)
    ensures fresh(b) && b.Length == a.Length + 1 && b[..a.Length] == a[..]
  {
    b := new string[a.Length + 1];
    var k := 0;
    while k < a.Length
      invariant 0 <= k <= a.Length
      invariant forall m :: 0 <= m < k ==> b[m] == a[m]
    {
      b[k] := a[k];
      k := k + 1;
    }
  }

  /** The loop `for (m = a.Length - 1; m > i; m--) a[m] = a[m - 1]`. */
  method ShiftUp(a: array<string>, i: nat)
    requires i < a.Length
    modifies a
    ensures forall m :: 0 <= m <= i ==> a[m] == old(a[m])
    ensures forall m :: i < m < a.Length ==> a[m] == old(a[m - 1])
  {
    var m := a.Length - 1;
    while m > i
      invariant i <= m <= a.Length - 1
      invariant forall k :: 0 <= k <= m ==> a[k] == old(a[k])
      invariant forall k :: m < k < a.Length ==> a[k] == old(a[k - 1])
    {
      a[m] := a[m - 1];
      m := m - 1;
    }
  }

  /** A letter inside entry `i`: the array grows by one, entry `i` keeps the part before position `n` and the part from `n` on follows it. */
  method SplitEntry(a: array<string>, i: nat, n: nat) returns (b: array<string>)
    requires i < a.Length && n <= |a[i]|
    ensures fresh(b) && b.Length == a.Length + 1
    ensures b[..i] == a[..i] && b[i] == a[i][..n] && b[i + 1..] == [a[i][n..]] + a[i + 1..]
  {
    b := Resize(a);
    ShiftUp(b, i);
    b[i] := b[i][..n];
    b[i + 1] := b[i + 1][n..];
    assert b[i + 1..] == [a[i][n..]] + a[i + 1..] by {
      forall k | i + 1 < k < b.Length
        ensures b[k] == a[k - 1]
      {
      }
    }
  }

  // One-step unfoldings of the visit, one per branch of the scan.

  lemma StepParsed(lib: Lib, tok: string, rest: seq<string>, st: Scan)
    requires lib.parse(Trim(tok)).Some?
    ensures TokenStep(lib, tok, rest, st) == Ok((rest, Number(st, lib.parse(Trim(tok)).value)))
  {
  }

  lemma StepEmpty(lib: Lib, tok: string, rest: seq<string>, st: Scan)
    requires Trim(tok) == [] && lib.parse([]).None?
    ensures TokenStep(lib, tok, rest, st) == Throws
  {
  }

  lemma StepLead(lib: Lib, tok: string, rest: seq<string>, st: Scan)
    requires lib.parse(Trim(tok)).None? && |Trim(tok)| > 0 && lib.isLetter(Trim(tok)[0])
    ensures var t, st1 := Trim(tok), st.(upperCase := lib.isUpper(Trim(tok)[0]));
            TokenStep(lib, tok, rest, st) == if lib.parse(t[1..]).Some? then TokenStep(lib, t[1..], rest, st1) else Letters(lib, t[1..], rest, st1)
  {
  }

  lemma StepNoLead(lib: Lib, tok: string, rest: seq<string>, st: Scan)
    requires lib.parse(Trim(tok)).None? && |Trim(tok)| > 0 && !lib.isLetter(Trim(tok)[0])
    ensures TokenStep(lib, tok, rest, st) == Letters(lib, Trim(tok), rest, st)
  {
  }

  lemma LettersFound(lib: Lib, t: string, rest: seq<string>, st: Scan, n: nat)
    requires n < |t| && lib.isLetter(t[n]) && NoLetter(lib, t[..n])
    ensures var st1 := st.(upperCase := lib.isUpper(t[n]));
            Letters(lib, t, rest, st) == if n == |t| - 1 then TokenStep(lib, t[..n], rest, st1) else TokenStep(lib, t[..n], [t[n..]] + rest, st1)
  {
    assert FirstLetter(lib, t) == Some(n);
  }

  lemma LettersNone(lib: Lib, t: string, rest: seq<string>, st: Scan)
    requires NoLetter(lib, t)
    ensures Letters(lib, t, rest, st) == Ok((rest, st))
  {
  }

  /** The visit ends at list entry `0`: the list goes on with what the visit left. */
  lemma TokensUnfold(lib: Lib, ts: seq<string>, st: Scan)
    requires ts != []
    ensures Tokens(lib, ts, st) == match TokenStep(lib, ts[0], ts[1..], st)
                                   case Throws => Throws
                                   case Ok((rest, st')) => Tokens(lib, rest, st')
    ensures TokenStep(lib, ts[0], ts[1..], st).Ok? ==> Weight(TokenStep(lib, ts[0], ts[1..], st).value.0) < Weight(ts)
  {
    match TokenStep(lib, ts[0], ts[1..], st)
    case Throws =>
    case Ok((rest, st')) =>
      if rest != ts[1..] {
        assert rest[1..] == ts[1..];
      }
  }

  /** The `for n` loop: the position of the first letter of `t`, or `|t|` when it has none. */
  method FindLetter(lib: Lib, t: string) returns (n: nat)
    ensures n <= |t|
    ensures n < |t| <==> FirstLetter(lib, t).Some?
    ensures n < |t| ==> FirstLetter(lib, t) == Some(n)
  {
    n := 0;
    while n < |t|
      invariant 0 <= n <= |t|
      invariant NoLetter(lib, t[..n])
    {
      if lib.isLetter(t[n]) {
        return;
      }
      assert t[..n + 1] == t[..n] + [t[n]];
      n := n + 1;
    }
    assert t[..n] == t;
  }

  /** How one pass from the label `doAgain` ends. */
  datatype Pass = Done | Again | Fault

  /**
   * The `for n` loop over entry `i`, which did not parse: the first letter sets the mode and
   * the entry is cut before it (`Again`, the `goto doAgain`), moving the part from the letter
   * on into a new entry after it when the letter is not the last character.
   */
  method CutAtLetter(lib: Lib, a: array<string>, i: nat, st: Scan) returns (b: array<string>, st': Scan, pass: Pass)
    requires i < a.Length
    modifies a
    ensures (b == a || fresh(b)) && i < b.Length && pass != Fault
    ensures pass == Done ==> Letters(lib, old(a[i]), old(a[i + 1..]), st) == Ok((b[i + 1..], st'))
    ensures pass == Again ==> |b[i]| < |old(a[i])|
                              && Letters(lib, old(a[i]), old(a[i + 1..]), st) == TokenStep(lib, b[i], b[i + 1..], st')
  {
    b := a;
    var t := a[i];
    var n := FindLetter(lib, t);
    if n < |t| {
      LettersFound(lib, t, a[i + 1..], st, n);
      st' := st.(upperCase := lib.isUpper(t[n]));
      if n == |t| - 1 {
        ghost var rest := a[i + 1..];
        b[i] := t[..n];
        assert b[i + 1..] == rest;
      } else {
        b := SplitEntry(a, i, n);
      }
      pass := Again;
    } else {
      LettersNone(lib, t, a[i + 1..], st);
      st', pass := st, Done;
    }
  }

  /**
   * One pass over entry `i` from the label `doAgain`: trim it, then take it as a number
   * (`Done`), fail on an empty entry (`Fault`), or handle its letters, ending in `Done` or in
   * a `goto doAgain` on a shorter entry (`Again`).
   */
  method VisitOnce(lib: Lib, a: array<string>, i: nat, st: Scan) returns (b: array<string>, st': Scan, pass: Pass)
    requires i < a.Length
    modifies a
    ensures (b == a || fresh(b)) && i < b.Length
    ensures pass == Fault ==> TokenStep(lib, old(a[i]), old(a[i + 1..]), st).Throws?
    ensures pass == Done ==> TokenStep(lib, old(a[i]), old(a[i + 1..]), st) == Ok((b[i + 1..], st'))
    ensures pass == Again ==> |b[i]| < |old(a[i])|
                              && TokenStep(lib, old(a[i]), old(a[i + 1..]), st) == TokenStep(lib, b[i], b[i + 1..], st')
  {
    b := a;
    var xPos, yPos, isX, upperCase, pointList := st.xPos, st.yPos, st.isX, st.upperCase, st.points;
    ghost var tok, rest := a[i], a[i + 1..];
    var t := Trim(a[i]);
    TrimSlice(tok);
    a[i] := t;
    assert a[i + 1..] == rest;
    var extracted := lib.parse(t);
    if extracted.Some? {
      StepParsed(lib, tok, rest, st);
      var v := extracted.value;
      ghost var want := Number(st, v);
      if !upperCase {
        if isX {
          v := v + xPos;
        } else {
          v := v + yPos;
        }
      }
      assert v == if isX then want.xPos else want.yPos;
      if isX {
        xPos := v;
      } else {
        yPos := v;
      }
      if !isX {
        pointList := pointList + [Vec(xPos, yPos)];
      }
      isX := !isX;
      assert Scan(pointList, xPos, yPos, isX, upperCase) == want;
      return a, Scan(pointList, xPos, yPos, isX, upperCase), Done;
    }
    if |t| == 0 {
      // char.IsLetter(pointArray[i], 0) on an empty string
      StepEmpty(lib, tok, rest, st);
      return a, st, Fault;
    }
    st' := st;
    if lib.isLetter(t[0]) {
      StepLead(lib, tok, rest, st);
      st' := st.(upperCase := lib.isUpper(t[0]));
      a[i] := t[1..];
      assert a[i + 1..] == rest;
      if lib.parse(t[1..]).Some? {
        return a, st', Again;
      }
    } else {
      StepNoLead(lib, tok, rest, st);
    }
    b, st', pass := CutAtLetter(lib, a, i, st');
  }

  /**
   * The body of the `for i` loop: one visit of `a[i]`, restarted at `doAgain` until it ends,
   * from the scan state `st`. The array is the one to go on with (a fresh one after a split).
   */
  method VisitEntry(lib: Lib, a: array<string>, i: nat, st: Scan) returns (b: array<string>, st': Scan, thrown: bool)
    requires i < a.Length
    modifies a
    ensures (b == a || fresh(b)) && i < b.Length
    ensures thrown <==> TokenStep(lib, old(a[i]), old(a[i + 1..]), st).Throws?
    ensures !thrown ==> TokenStep(lib, old(a[i]), old(a[i + 1..]), st) == Ok((b[i + 1..], st'))
  {
    b, st' := a, st;
    ghost var step := TokenStep(lib, a[i], a[i + 1..], st);
    var pass := Again;
    while pass == Again
      invariant i < b.Length && (b == a || fresh(b))
      invariant pass == Fault ==> step.Throws?
      invariant pass == Done ==> step == Ok((b[i + 1..], st'))
      invariant pass == Again ==> TokenStep(lib, b[i], b[i + 1..], st') == step
      decreases if pass == Again then |b[i]| + 1 else 0
    {
      b, st', pass := VisitOnce(lib, b, i, st');
    }
    thrown := pass == Fault;
  }

  /** `StringToPointsList(points)` for the attribute value `value`. */
  method StringToPointsList(lib: Lib, value: string) returns (r: Result<seq<Vec>>)
    ensures r == PointsOf(lib, value)
  {
    var tokens := Preprocess(value);
    var pointArray := new string[|tokens|](k requires 0 <= k < |tokens| => tokens[k]);
    assert pointArray[0..] == tokens;
    var xPos, yPos := 0.0, 0.0;
    var isX, upperCase := true, true;
    var pointList: seq<Vec> := [];
    ghost var target := Tokens(lib, tokens, Start);
    var i := 0;
    while i < pointArray.Length
      invariant 0 <= i <= pointArray.Length && fresh(pointArray)
      invariant Tokens(lib, pointArray[i..], Scan(pointList, xPos, yPos, isX, upperCase)) == target
      decreases Weight(pointArray[i..])
    {
      assert pointArray[i..][0] == pointArray[i] && pointArray[i..][1..] == pointArray[i + 1..];
      TokensUnfold(lib, pointArray[i..], Scan(pointList, xPos, yPos, isX, upperCase));
      var st, thrown;
      pointArray, st, thrown := VisitEntry(lib, pointArray, i, Scan(pointList, xPos, yPos, isX, upperCase));
      if thrown {
        return Throws;
      }
      pointList, xPos, yPos, isX, upperCase := st.points, st.xPos, st.yPos, st.isX, st.upperCase;
      i := i + 1;
    }
    assert pointArray[i..] == [];
    r := Ok(pointList);
  }

  // ----- properties of the scan -----

  /** The numbers the entries parse to, after trimming. */
  function Values(lib: Lib, ts: seq<string>): (vs: seq<real>)
    requires forall k :: 0 <= k < |ts| ==> lib.parse(Trim(ts[k])).Some?
    ensures |vs| == |ts|
  {
    if ts == [] then [] else [lib.parse(Trim(ts[0])).value] + Values(lib, ts[1..])
  }

  /** The state after a run of numbers. */
  function Numbers(st: Scan, vs: seq<real>): Scan
    decreases |vs|
  {
    if vs == [] then st else Numbers(Number(st, vs[0]), vs[1..])
  }

  /** Entries that all parse are taken one by one as numbers, and the array is not re-split. */
  lemma {:induction false} NumericEntries(lib: Lib, ts: seq<string>, st: Scan)
    requires forall k :: 0 <= k < |ts| ==> lib.parse(Trim(ts[k])).Some?
    ensures Tokens(lib, ts, st) == Ok(Numbers(st, Values(lib, ts)))
  {
    if ts != [] {
      TokensUnfold(lib, ts, st);
      StepParsed(lib, ts[0], ts[1..], st);
      NumericEntries(lib, ts[1..], Number(st, lib.parse(Trim(ts[0])).value));
    }
  }

  /** Consecutive pairs of values as points; an unpaired last value gives none. */
  function Pairs(vs: seq<real>): seq<Vec>
  {
    if |vs| < 2 then [] else [Vec(vs[0], vs[1])] + Pairs(vs[2..])
  }

  /** Consecutive pairs of offsets, each point the previous one moved by its pair. */
  function Walked(vs: seq<real>, x: real, y: real): seq<Vec>
  {
    if |vs| < 2 then [] else [Vec(x + vs[0], y + vs[1])] + Walked(vs[2..], x + vs[0], y + vs[1])
  }

  /** In absolute (upper-case) mode, starting on an x coordinate, the numbers are the points' coordinates. */
  lemma {:induction false} AbsoluteRun(st: Scan, vs: seq<real>)
    requires st.upperCase && st.isX
    ensures Numbers(st, vs).points == st.points + Pairs(vs)
    ensures Numbers(st, vs).upperCase
    decreases |vs|
  {
    if |vs| == 0 {
    } else if |vs| == 1 {
      assert Numbers(Number(st, vs[0]), vs[1..]) == Number(st, vs[0]);
    } else {
      var two := Number(Number(st, vs[0]), vs[1]);
      assert Numbers(st, vs) == Numbers(two, vs[2..]) by {
        assert vs[1..][0] == vs[1] && vs[1..][1..] == vs[2..];
      }
      AbsoluteRun(two, vs[2..]);
    }
  }

  /** In relative (lower-case) mode, starting on an x coordinate, each pair moves the position. */
  lemma {:induction false} RelativeRun(st: Scan, vs: seq<real>)
    requires !st.upperCase && st.isX
    ensures Numbers(st, vs).points == st.points + Walked(vs, st.xPos, st.yPos)
    ensures !Numbers(st, vs).upperCase
    decreases |vs|
  {
    if |vs| == 0 {
    } else if |vs| == 1 {
      assert Numbers(Number(st, vs[0]), vs[1..]) == Number(st, vs[0]);
    } else {
      var two := Number(Number(st, vs[0]), vs[1]);
      assert Numbers(st, vs) == Numbers(two, vs[2..]) by {
        assert vs[1..][0] == vs[1] && vs[1..][1..] == vs[2..];
      }
      RelativeRun(two, vs[2..]);
    }
  }

  /** An attribute of numbers only gives the points they pair up into, in order. */
  lemma NumbersOnly(lib: Lib, value: string)
    requires forall k :: 0 <= k < |Preprocess(value)| ==> lib.parse(Trim(Preprocess(value)[k])).Some?
    ensures PointsOf(lib, value) == Ok(Pairs(Values(lib, Preprocess(value))))
  {
    var ts := Preprocess(value);
    NumericEntries(lib, ts, Start);
    AbsoluteRun(Start, Values(lib, ts));
    assert Start.points + Pairs(Values(lib, ts)) == Pairs(Values(lib, ts));
  }

  /** An attribute of white space only gives no points. */
  lemma BlankAttribute(lib: Lib, value: string)
    requires forall c :: c in value ==> IsWhite(c)
    ensures PointsOf(lib, value) == Ok([])
  {
    BlankValue(value);
  }

  // Letters, for an entry that is already trimmed and does not parse as a whole.

  /** A leading letter (`"M10"`) sets the mode from its case and the rest is read as a number. */
  lemma LeadingLetter(lib: Lib, tok: string, rest: seq<string>, st: Scan, v: real)
    requires Trim(tok) == tok && |tok| > 0 && lib.parse(tok).None?
    requires lib.isLetter(tok[0]) && lib.parse(tok[1..]) == Some(v) && Trim(tok[1..]) == tok[1..]
    ensures TokenStep(lib, tok, rest, st) == Ok((rest, Number(st.(upperCase := lib.isUpper(tok[0])), v)))
  {
    StepLead(lib, tok, rest, st);
    StepParsed(lib, tok[1..], rest, st.(upperCase := lib.isUpper(tok[0])));
  }

  /**
   * A trailing letter (`"10z"`) is cut off; the mode it sets already applies to the number
   * before it.
   */
  lemma TrailingLetter(lib: Lib, w: string, c: char, rest: seq<string>, st: Scan, v: real)
    requires var tok := w + [c];
             Trim(tok) == tok && lib.parse(tok).None? && lib.isLetter(c)
    requires w != [] && NoLetter(lib, w) && Trim(w) == w && lib.parse(w) == Some(v)
    ensures TokenStep(lib, w + [c], rest, st) == Ok((rest, Number(st.(upperCase := lib.isUpper(c)), v)))
  {
    var tok := w + [c];
    assert tok[0] == w[0] && w[0] in w;
    StepNoLead(lib, tok, rest, st);
    assert tok[..|w|] == w;
    LettersFound(lib, tok, rest, st, |w|);
    StepParsed(lib, w, rest, st.(upperCase := lib.isUpper(c)));
  }

  /**
   * A letter inside an entry (`"10c5"`) splits it: the part before the letter is read as a
   * number, under the mode the letter sets, and the part from the letter on becomes the next
   * entry.
   */
  lemma EmbeddedLetter(lib: Lib, w: string, u: string, rest: seq<string>, st: Scan, v: real)
    requires var tok := w + u;
             Trim(tok) == tok && lib.parse(tok).None?
    requires |u| >= 2 && lib.isLetter(u[0])
    requires w != [] && NoLetter(lib, w) && Trim(w) == w && lib.parse(w) == Some(v)
    ensures TokenStep(lib, w + u, rest, st) == Ok(([u] + rest, Number(st.(upperCase := lib.isUpper(u[0])), v)))
  {
    var tok := w + u;
    assert tok[0] == w[0] && w[0] in w;
    StepNoLead(lib, tok, rest, st);
    assert tok[..|w|] == w && tok[|w|..] == u;
    LettersFound(lib, tok, rest, st, |w|);
    StepParsed(lib, w, [u] + rest, st.(upperCase := lib.isUpper(u[0])));
  }

  /** A lone command letter (`"M"`) only sets the mode. */
  lemma CommandLetter(lib: Lib, c: char, rest: seq<string>, st: Scan)
    requires !IsWhite(c) && lib.isLetter(c) && lib.parse([c]).None? && lib.parse([]).None?
    ensures TokenStep(lib, [c], rest, st) == Ok((rest, st.(upperCase := lib.isUpper(c))))
  {
    TrimKeeps([c]);
    StepLead(lib, [c], rest, st);
    LettersNone(lib, [], rest, st.(upperCase := lib.isUpper(c)));
  }

  /**
   * Two letters in front (`"ab"`, `"abc"`) end in a restart on an empty entry, where
   * `char.IsLetter(pointArray[i], 0)` throws.
   */
  lemma TwoLetters(lib: Lib, tok: string, rest: seq<string>, st: Scan)
    requires Trim(tok) == tok && |tok| >= 2 && lib.parse(tok).None? && lib.parse([]).None?
    requires lib.isLetter(tok[0]) && lib.isLetter(tok[1]) && lib.parse(tok[1..]).None?
    ensures TokenStep(lib, tok, rest, st) == Throws
  {
    var st1 := st.(upperCase := lib.isUpper(tok[0]));
    StepLead(lib, tok, rest, st);
    var t1 := tok[1..];
    assert t1[..0] == [];
    LettersFound(lib, t1, rest, st1, 0);
    var st2 := st1.(upperCase := lib.isUpper(t1[0]));
    StepEmpty(lib, [], rest, st2);
    StepEmpty(lib, [], [t1[0..]] + rest, st2);
  }

  /** An entry of white space only (from `"1 \n 2"`) trims to nothing, and the visit throws. */
  lemma BlankEntry(lib: Lib, tok: string, rest: seq<string>, st: Scan)
    requires forall c :: c in tok ==> IsWhite(c)
    requires lib.parse([]).None?
    ensures TokenStep(lib, tok, rest, st) == Throws
  {
    TrimBlank(tok);
    StepEmpty(lib, tok, rest, st);
  }

  /** A blank entry after numbers makes the whole scan throw, whatever follows it. */
  lemma {:induction false} BlankEntryThrows(lib: Lib, ts: seq<string>, st: Scan, k: nat)
    requires k < |ts| && forall m :: 0 <= m < k ==> lib.parse(Trim(ts[m])).Some?
    requires (forall c :: c in ts[k] ==> IsWhite(c)) && lib.parse([]).None?
    ensures Tokens(lib, ts, st) == Throws
    decreases k
  {
    TokensUnfold(lib, ts, st);
    if k > 0 {
      StepParsed(lib, ts[0], ts[1..], st);
      var st' := Number(st, lib.parse(Trim(ts[0])).value);
      assert ts[1..][k - 1] == ts[k];
      BlankEntryThrows(lib, ts[1..], st', k - 1);
    } else {
      BlankEntry(lib, ts[0], ts[1..], st);
    }
  }
}
