/**
 * The string preparation at the start of `SvgExtentions.StringToPointsList`: trim the
 * attribute value, turn spaces into commas, put a comma before every minus sign and split on
 * commas, dropping empty entries.
 */
module PathTokens {

  /** `char.IsWhiteSpace`: the characters `String.Trim()` removes. */
  predicate IsWhite(c: char)
  {
    || c == ' ' || ('\t' <= c <= '\r') || c == '\U{0085}' || c == '\U{00A0}' || c == '\U{1680}'
    || ('\U{2000}' <= c <= '\U{200A}') || c == '\U{2028}' || c == '\U{2029}' || c == '\U{202F}'
    || c == '\U{205F}' || c == '\U{3000}'
  }

  /** The suffix of `s` that starts at its first non-white character. */
  function TrimStart(s: string): (r: string)
    ensures |r| <= |s| && r == s[|s| - |r|..]
    ensures |r| > 0 ==> !IsWhite(r[0])
    ensures forall k :: 0 <= k < |s| - |r| ==> IsWhite(s[k])
  {
    if |s| > 0 && IsWhite(s[0]) then TrimStart(s[1..]) else s
  }

  /** The prefix of `s` that ends at its last non-white character. */
  function TrimEnd(s: string): (r: string)
    ensures |r| <= |s| && r == s[..|r|]
    ensures |r| > 0 ==> !IsWhite(r[|r| - 1])
    ensures forall k :: |r| <= k < |s| ==> IsWhite(s[k])
  {
    if |s| > 0 && IsWhite(s[|s| - 1]) then TrimEnd(s[..|s| - 1]) else s
  }

  /** `String.Trim()`. */
  function Trim(s: string): string
  {
    TrimEnd(TrimStart(s))
  }

  /** Trimming keeps a slice of the string, without white space at either end. */
  lemma TrimSlice(s: string)
    ensures var r := Trim(s);
            && |r| <= |s| && (forall c :: c in r ==> c in s)
            && (|r| > 0 ==> !IsWhite(r[0]) && !IsWhite(r[|r| - 1]))
  {
    var t := TrimStart(s);
    var r := TrimEnd(t);
    forall c | c in r
      ensures c in s
    {
      var k :| 0 <= k < |r| && r[k] == c;
      assert t[k] == c;
      assert s[|s| - |t| + k] == c;
    }
  }

  /** A string that does not start or end with white space is left as it is. */
  lemma TrimKeeps(s: string)
    requires |s| > 0 ==> !IsWhite(s[0]) && !IsWhite(s[|s| - 1])
    ensures Trim(s) == s
  {
    if |s| > 0 {
      assert |TrimStart(s)| == |s|;
    }
  }

  /** A string of white space only trims to the empty string. */
  lemma TrimBlank(s: string)
    requires forall c :: c in s ==> IsWhite(c)
    ensures Trim(s) == ""
  {
    TrimSlice(s);
  }

  // ----- the replacements -----

  /** The characters other than the separators `' '` and `','`, in order. */
  function Strip(s: string): (r: string)
    ensures ' ' !in r && ',' !in r
  {
    if s == [] then []
    else (if s[0] == ' ' || s[0] == ',' then [] else [s[0]]) + Strip(s[1..])
  }

  lemma {:induction false} StripConcat(a: string, b: string)
    ensures Strip(a + b) == Strip(a) + Strip(b)
  {
    if a == [] {
      assert a + b == b;
    } else {
      assert (a + b)[1..] == a[1..] + b;
      StripConcat(a[1..], b);
    }
  }

  /** `Replace(" ", ",")`. */
  function SpacesToCommas(s: string): (r: string)
    ensures |r| == |s| && ' ' !in r
    ensures forall k :: 0 <= k < |s| && s[k] != ' ' ==> r[k] == s[k]
  {
    if s == [] then [] else [if s[0] == ' ' then ',' else s[0]] + SpacesToCommas(s[1..])
  }

  /** Every minus sign of `s` stands after a comma. */
  predicate Dashed(s: string)
  {
    forall k :: 0 <= k < |s| && s[k] == '-' ==> 0 < k && s[k - 1] == ','
  }

  /** `Replace("-", ",-")`. */
  function CommaBeforeDash(s: string): (r: string)
    ensures Dashed(r)
    ensures ' ' !in s ==> ' ' !in r
  {
    if s == [] then [] else (if s[0] == '-' then ",-" else [s[0]]) + CommaBeforeDash(s[1..])
  }

  /** Turning spaces into commas keeps the characters that are not separators. */
  lemma {:induction false} SpacesKeepContent(s: string)
    ensures Strip(SpacesToCommas(s)) == Strip(s)
  {
    if s != [] {
      SpacesKeepContent(s[1..]);
      StripConcat([if s[0] == ' ' then ',' else s[0]], SpacesToCommas(s[1..]));
    }
  }

  /** Putting commas before minus signs keeps the characters that are not separators. */
  lemma {:induction false} DashesKeepContent(s: string)
    ensures Strip(CommaBeforeDash(s)) == Strip(s)
  {
    if s != [] {
      var rest := CommaBeforeDash(s[1..]);
      DashesKeepContent(s[1..]);
      if s[0] == '-' {
        assert CommaBeforeDash(s) == ",-" + rest;
        StripConcat(",-", rest);
        assert ",-"[1..] == "-" && "-"[1..] == [];
      } else {
        assert CommaBeforeDash(s) == [s[0]] + rest;
        StripConcat([s[0]], rest);
      }
    }
  }

  // ----- the split -----

  /** `Split(",", RemoveEmptyEntries)` of `cur + s`, where `cur` is the entry read so far. */
  function SplitFrom(s: string, cur: string): (r: seq<string>)
    ensures forall tok :: tok in r ==> tok != []
    ensures ',' !in cur ==> forall tok :: tok in r ==> ',' !in tok
  {
    if s == [] then (if cur == [] then [] else [cur])
    else if s[0] == ',' then (if cur == [] then [] else [cur]) + SplitFrom(s[1..], [])
    else SplitFrom(s[1..], cur + [s[0]])
  }

  function Concat(ts: seq<string>): string
  {
    if ts == [] then [] else ts[0] + Concat(ts[1..])
  }

  lemma {:induction false} ConcatAppend(a: seq<string>, b: seq<string>)
    ensures Concat(a + b) == Concat(a) + Concat(b)
  {
    if a == [] {
      assert a + b == b;
    } else {
      assert (a + b)[1..] == a[1..] + b;
      ConcatAppend(a[1..], b);
    }
  }

  /** The entries, run together, are the pending entry followed by the text without its commas. */
  lemma {:induction false} SplitContent(s: string, cur: string)
    requires ' ' !in s
    ensures Concat(SplitFrom(s, cur)) == cur + Strip(s)
  {
    if s == [] {
    } else if s[0] == ',' {
      SplitContent(s[1..], []);
      var head := if cur == [] then [] else [cur];
      ConcatAppend(head, SplitFrom(s[1..], []));
    } else {
      SplitContent(s[1..], cur + [s[0]]);
    }
  }

  /** No entry holds a space, and a minus sign can only open an entry. */
  lemma {:induction false} SplitShape(s: string, cur: string)
    requires ' ' !in s && ' ' !in cur
    requires forall k :: 0 < k < |cur| ==> cur[k] != '-'
    requires |s| > 0 && s[0] == '-' ==> cur == []
    requires forall k :: 0 < k < |s| && s[k] == '-' ==> s[k - 1] == ','
    ensures forall tok :: tok in SplitFrom(s, cur) ==> ' ' !in tok && forall k :: 0 < k < |tok| ==> tok[k] != '-'
  {
    if s == [] {
    } else if s[0] == ',' {
      SplitShape(s[1..], []);
    } else {
      var next := cur + [s[0]];
      assert forall k :: 0 < k < |next| ==> next[k] != '-' by {
        forall k | 0 < k < |next|
          ensures next[k] != '-'
        {
          if k == |cur| {
            assert next[k] == s[0];
          }
        }
      }
      SplitShape(s[1..], next);
    }
  }

  /** The token array of `StringToPointsList`. */
  function Preprocess(value: string): seq<string>
  {
    SplitFrom(CommaBeforeDash(SpacesToCommas(Trim(value))), [])
  }

  /**
   * Every token is non-empty, holds no comma and no space, and has a minus sign at most at its
   * start; run together, the tokens are the trimmed value without its spaces and commas.
   */
  lemma PreprocessTokens(value: string)
    ensures forall tok :: tok in Preprocess(value) ==>
              && tok != [] && ',' !in tok && ' ' !in tok
              && forall k :: 0 < k < |tok| ==> tok[k] != '-'
    ensures Concat(Preprocess(value)) == Strip(Trim(value))
  {
    var s := CommaBeforeDash(SpacesToCommas(Trim(value)));
    SplitShape(s, []);
    SplitContent(s, []);
    SpacesKeepContent(Trim(value));
    DashesKeepContent(SpacesToCommas(Trim(value)));
  }

  /** A value of white space only yields no tokens. */
  lemma BlankValue(value: string)
    requires forall c :: c in value ==> IsWhite(c)
    ensures Preprocess(value) == []
  {
    TrimBlank(value);
  }

  /** The minus sign separates numbers: `"10-5"` gives `"10"` and `"-5"`. */
  lemma MinusSplits()
    ensures Preprocess("10-5") == ["10", "-5"]
  {
    TrimKeeps("10-5");
    MinusReplaced();
    MinusSplitsAtComma();
  }

  lemma MinusReplaced()
    ensures SpacesToCommas("10-5") == "10-5" && CommaBeforeDash("10-5") == "10,-5"
  {
    assert SpacesToCommas("5") == "5" && CommaBeforeDash("5") == "5";
    assert SpacesToCommas("-5") == "-5" && CommaBeforeDash("-5") == ",-5";
    assert SpacesToCommas("0-5") == "0-5" && CommaBeforeDash("0-5") == "0,-5";
  }

  lemma MinusSplitsAtComma()
    ensures SplitFrom("10,-5", []) == ["10", "-5"]
  {
    assert "5"[1..] == "" && "-" + ['5'] == "-5";
    assert SplitFrom("5", "-") == ["-5"];
    assert "-5"[1..] == "5" && [] + ['-'] == "-";
    assert SplitFrom("-5", []) == ["-5"];
    assert ",-5"[1..] == "-5";
    assert SplitFrom(",-5", "10") == ["10", "-5"];
    assert "0,-5"[1..] == ",-5" && "1" + ['0'] == "10";
    assert SplitFrom("0,-5", "1") == ["10", "-5"];
    assert "10,-5"[1..] == "0,-5" && [] + ['1'] == "1";
  }
}
