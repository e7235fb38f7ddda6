/** `tokenize_type`: the rewrite that splits a rendered type into tokens for
    the text index.  Each of `< > [ ] &` is surrounded by spaces, then every
    run of spaces is shortened, one left-to-right pass at a time, until a pass
    changes nothing. */
module Tokenize {

  /** The characters `tokenize_type` pads with spaces. */
  const SPECIALS: set<char> := {'<', '>', '[', ']', '&'}

  /** `s.replace(c, rep)`: every occurrence of the character `c` replaced by `rep`. */
  function ReplaceChar(s: string, c: char, rep: string): (r: string)
    ensures c !in rep ==> c !in r
    ensures c !in s ==> r == s
  {
    if s == [] then []
    else (if s[0] == c then rep else [s[0]]) + ReplaceChar(s[1..], c, rep)
  }

  /** The replacement text for a padded character. */
  function Surround(c: char): string
  {
    [' ', c, ' ']
  }

  /** The five padding replacements, in the order the source applies them. */
  function Pad(s: string): string
  {
    var lt := ReplaceChar(s, '<', Surround('<'));
    var gt := ReplaceChar(lt, '>', Surround('>'));
    var lb := ReplaceChar(gt, '[', Surround('['));
    var rb := ReplaceChar(lb, ']', Surround(']'));
    ReplaceChar(rb, '&', Surround('&'))
  }

  /** `s.replace("  ", " ")`: matches of two spaces are found left to right
      without overlapping, and each becomes one space. */
  function CollapseOnce(s: string): (r: string)
    ensures |r| <= |s|
    ensures r == s || |r| < |s|
  {
    if |s| >= 2 && s[0] == ' ' && s[1] == ' ' then " " + CollapseOnce(s[2..])
    else if s == [] then []
    else [s[0]] + CollapseOnce(s[1..])
  }

  predicate HasDoubleSpace(s: string)
  {
    exists i :: 0 <= i < |s| - 1 && s[i] == ' ' && s[i + 1] == ' '
  }

  /** The fixpoint loop: collapse until a pass changes nothing. */
  function Collapse(s: string): string
    decreases |s|
  {
    var n := CollapseOnce(s);
    if n == s then s else Collapse(n)
  }

  /** What `tokenize_type` returns. */
  function Tokenize(s: string): string
  {
    Collapse(Pad(s))
  }

  /** `s` with every space deleted: the text the rewrite must not alter. */
  function StripSpaces(s: string): string
  {
    if s == [] then []
    else (if s[0] == ' ' then [] else [s[0]]) + StripSpaces(s[1..])
  }

  /** Two neighbouring characters respect the padding of the characters `cs`. */
  predicate PairOk(x: char, y: char, cs: set<char>)
  {
    (x in cs ==> y == ' ') && (y in cs ==> x == ' ')
  }

  /** Every pair of neighbours respects the padding of `cs`. */
  predicate PairsOk(s: string, cs: set<char>)
    decreases |s|
  {
    |s| < 2 || (PairOk(s[0], s[1], cs) && PairsOk(s[1..], cs))
  }

  /** Every occurrence of a character of `cs` has a space on both sides. */
  predicate Spaced(s: string, cs: set<char>)
  {
    PairsOk(s, cs) && (|s| > 0 ==> s[0] !in cs && s[|s| - 1] !in cs)
  }

  // ---------------------------------------------------------------------------
  // Spaces are the only thing the rewrite adds or removes
  // ---------------------------------------------------------------------------

  lemma {:induction false} StripSpacesConcat(a: string, b: string)
    ensures StripSpaces(a + b) == StripSpaces(a) + StripSpaces(b)
  {
    if a == [] {
      assert a + b == b;
    } else {
      assert (a + b)[0] == a[0];
      assert (a + b)[1..] == a[1..] + b;
      StripSpacesConcat(a[1..], b);
    }
  }

  /** The padding of `c` holds no text but `c`. */
  lemma SurroundStrip(c: char)
    requires c != ' '
    ensures StripSpaces(Surround(c)) == [c]
  {
    var sp: string := [' '];
    assert StripSpaces(sp) == [] by { assert sp[1..] == []; }
    assert [c, ' '][1..] == sp;
    assert StripSpaces([c, ' ']) == [c];
    assert Surround(c)[1..] == [c, ' '];
  }

  lemma {:induction false} ReplaceCharStrip(s: string, c: char)
    requires c != ' '
    ensures StripSpaces(ReplaceChar(s, c, Surround(c))) == StripSpaces(s)
  {
    if s != [] {
      var head := if s[0] == c then Surround(c) else [s[0]];
      var rest := ReplaceChar(s[1..], c, Surround(c));
      assert ReplaceChar(s, c, Surround(c)) == head + rest;
      SurroundStrip(c);
      StripSpacesConcat(head, rest);
      ReplaceCharStrip(s[1..], c);
      assert s == [s[0]] + s[1..];
      StripSpacesConcat([s[0]], s[1..]);
    }
  }


  lemma PadStrip(s: string)
    ensures StripSpaces(Pad(s)) == StripSpaces(s)
  {
    var lt := ReplaceChar(s, '<', Surround('<'));
    var gt := ReplaceChar(lt, '>', Surround('>'));
    var lb := ReplaceChar(gt, '[', Surround('['));
    var rb := ReplaceChar(lb, ']', Surround(']'));
    ReplaceCharStrip(s, '<');
    ReplaceCharStrip(lt, '>');
    ReplaceCharStrip(gt, '[');
    ReplaceCharStrip(lb, ']');
    ReplaceCharStrip(rb, '&');
  }

  lemma {:induction false} CollapseOnceStrip(s: string)
    ensures StripSpaces(CollapseOnce(s)) == StripSpaces(s)
  {
    if |s| >= 2 && s[0] == ' ' && s[1] == ' ' {
      CollapseOnceStrip(s[2..]);
      StripSpacesConcat(" ", CollapseOnce(s[2..]));
      assert s == "  " + s[2..];
      StripSpacesConcat("  ", s[2..]);
    } else if s != [] {
      CollapseOnceStrip(s[1..]);
      StripSpacesConcat([s[0]], CollapseOnce(s[1..]));
      assert s == [s[0]] + s[1..];
      StripSpacesConcat([s[0]], s[1..]);
    }
  }

  // ---------------------------------------------------------------------------
  // The collapse loop stops exactly when no double space is left
  // ---------------------------------------------------------------------------

  /** A pass changes nothing if and only if there is no double space. */
  lemma {:induction false} CollapseOnceFixpoint(s: string)
    ensures CollapseOnce(s) == s <==> !HasDoubleSpace(s)
  {
    if |s| >= 2 && s[0] == ' ' && s[1] == ' ' {
      assert |CollapseOnce(s)| < |s|;
    } else if s != [] {
      CollapseOnceFixpoint(s[1..]);
      var t := s[1..];
      if HasDoubleSpace(s) {
        var i :| 0 <= i < |s| - 1 && s[i] == ' ' && s[i + 1] == ' ';
        assert i > 0;
        assert t[i - 1] == ' ' && t[i] == ' ';
      }
      if HasDoubleSpace(t) {
        var i :| 0 <= i < |t| - 1 && t[i] == ' ' && t[i + 1] == ' ';
        assert s[i + 1] == ' ' && s[i + 2] == ' ';
      }
      assert CollapseOnce(s) == [s[0]] + CollapseOnce(t);
      assert s == [s[0]] + t;
    }
  }

  lemma {:induction false} CollapseNoDoubleSpace(s: string)
    ensures !HasDoubleSpace(Collapse(s))
    ensures StripSpaces(Collapse(s)) == StripSpaces(s)
    decreases |s|
  {
    var n := CollapseOnce(s);
    CollapseOnceStrip(s);
    if n == s {
      CollapseOnceFixpoint(s);
    } else {
      CollapseNoDoubleSpace(n);
    }
  }

  // ---------------------------------------------------------------------------
  // Padding: every special character ends up between two spaces
  // ---------------------------------------------------------------------------

  lemma {:induction false} PairsOkConcat(a: string, b: string, cs: set<char>)
    ensures PairsOk(a + b, cs) <==>
              PairsOk(a, cs) && PairsOk(b, cs) &&
              (|a| > 0 && |b| > 0 ==> PairOk(a[|a| - 1], b[0], cs))
  {
    if |a| >= 2 {
      assert (a + b)[1..] == a[1..] + b;
      PairsOkConcat(a[1..], b, cs);
    } else if |a| == 1 && |b| >= 1 {
      assert (a + b)[0] == a[0] && (a + b)[1] == b[0];
      assert (a + b)[1..] == b;
    } else if a == [] {
      assert a + b == b;
    }
  }

  lemma {:induction false} PairsOkIndex(s: string, cs: set<char>)
    requires PairsOk(s, cs)
    ensures forall i :: 0 <= i < |s| - 1 ==> PairOk(s[i], s[i + 1], cs)
  {
    if |s| >= 2 {
      PairsOkIndex(s[1..], cs);
      forall i | 0 <= i < |s| - 1
        ensures PairOk(s[i], s[i + 1], cs)
      {
        if i > 0 {
          assert s[i] == s[1..][i - 1] && s[i + 1] == s[1..][i];
        }
      }
    }
  }

  lemma {:induction false} PairsOkNone(s: string)
    ensures PairsOk(s, {})
  {
    if |s| >= 2 {
      PairsOkNone(s[1..]);
    }
  }

  lemma {:induction false} ReplaceCharEnds(s: string, c: char, rep: string)
    requires |s| > 0 && |rep| > 0
    ensures var r := ReplaceChar(s, c, rep);
            |r| > 0 &&
            r[0] == (if s[0] == c then rep[0] else s[0]) &&
            r[|r| - 1] == (if s[|s| - 1] == c then rep[|rep| - 1] else s[|s| - 1])
  {
    if |s| > 1 {
      ReplaceCharEnds(s[1..], c, rep);
    }
  }

  /** Padding `c` keeps the characters padded so far padded and pads `c`. */
  lemma {:induction false} ReplaceCharPairs(s: string, c: char, cs: set<char>)
    requires c != ' ' && ' ' !in cs && c !in cs
    requires PairsOk(s, cs)
    ensures PairsOk(ReplaceChar(s, c, Surround(c)), cs + {c})
  {
    if s != [] {
      var rest := ReplaceChar(s[1..], c, Surround(c));
      var head := if s[0] == c then Surround(c) else [s[0]];
      assert PairsOk(s[1..], cs);
      ReplaceCharPairs(s[1..], c, cs);
      assert PairsOk(head, cs + {c});
      if |s| > 1 {
        ReplaceCharEnds(s[1..], c, Surround(c));
        assert PairOk(s[0], s[1], cs);
      }
      PairsOkConcat(head, rest, cs + {c});
    }
  }

  lemma ReplaceCharSpaced(s: string, c: char, cs: set<char>)
    requires c != ' ' && ' ' !in cs && c !in cs
    requires Spaced(s, cs)
    ensures Spaced(ReplaceChar(s, c, Surround(c)), cs + {c})
  {
    ReplaceCharPairs(s, c, cs);
    if s != [] {
      ReplaceCharEnds(s, c, Surround(c));
    }
  }

  lemma PadSpaced(s: string)
    ensures Spaced(Pad(s), SPECIALS)
  {
    PairsOkNone(s);
    var lt := ReplaceChar(s, '<', Surround('<'));
    var gt := ReplaceChar(lt, '>', Surround('>'));
    var lb := ReplaceChar(gt, '[', Surround('['));
    var rb := ReplaceChar(lb, ']', Surround(']'));
    ReplaceCharSpaced(s, '<', {});
    assert {} + {'<'} == {'<'};
    ReplaceCharSpaced(lt, '>', {'<'});
    assert {'<'} + {'>'} == {'<', '>'};
    ReplaceCharSpaced(gt, '[', {'<', '>'});
    assert {'<', '>'} + {'['} == {'<', '>', '['};
    ReplaceCharSpaced(lb, ']', {'<', '>', '['});
    assert {'<', '>', '['} + {']'} == {'<', '>', '[', ']'};
    ReplaceCharSpaced(rb, '&', {'<', '>', '[', ']'});
    assert {'<', '>', '[', ']'} + {'&'} == SPECIALS;
  }

  lemma {:induction false} CollapseOnceEnds(s: string)
    requires |s| > 0
    ensures var r := CollapseOnce(s);
            |r| > 0 && r[0] == s[0] && r[|r| - 1] == s[|s| - 1]
  {
    if |s| >= 2 && s[0] == ' ' && s[1] == ' ' {
      var t := CollapseOnce(s[2..]);
      assert CollapseOnce(s) == " " + t;
      if |s| > 2 {
        CollapseOnceEnds(s[2..]);
        assert s[2..][|s[2..]| - 1] == s[|s| - 1];
      } else {
        assert t == [];
      }
    } else {
      var t := CollapseOnce(s[1..]);
      assert CollapseOnce(s) == [s[0]] + t;
      if |s| > 1 {
        CollapseOnceEnds(s[1..]);
        assert s[1..][|s[1..]| - 1] == s[|s| - 1];
      } else {
        assert t == [];
      }
    }
  }

  lemma {:induction false} CollapseOncePairs(s: string, cs: set<char>)
    requires ' ' !in cs && PairsOk(s, cs)
    ensures PairsOk(CollapseOnce(s), cs)
  {
    if |s| >= 2 && s[0] == ' ' && s[1] == ' ' {
      assert PairsOk(s[1..], cs);
      assert s[2..] == s[1..][1..];
      assert PairsOk(s[2..], cs);
      CollapseOncePairs(s[2..], cs);
      if |s| > 2 {
        CollapseOnceEnds(s[2..]);
      }
      PairsOkConcat(" ", CollapseOnce(s[2..]), cs);
    } else if s != [] {
      CollapseOncePairs(s[1..], cs);
      if |s| > 1 {
        CollapseOnceEnds(s[1..]);
      }
      PairsOkConcat([s[0]], CollapseOnce(s[1..]), cs);
    }
  }

  lemma {:induction false} CollapseSpaced(s: string, cs: set<char>)
    requires ' ' !in cs && Spaced(s, cs)
    ensures Spaced(Collapse(s), cs)
    decreases |s|
  {
    var n := CollapseOnce(s);
    if n != s {
      CollapseOncePairs(s, cs);
      if s != [] {
        CollapseOnceEnds(s);
      }
      CollapseSpaced(n, cs);
    }
  }

  /** What the rewrite guarantees: no double space is left, only spaces
      were added or removed, and each of `< > [ ] &` is a token of its own,
      with a space on either side. */
  lemma TokenizeProps(s: string)
    ensures var t := Tokenize(s);
            && !HasDoubleSpace(t)
            && StripSpaces(t) == StripSpaces(s)
            && forall i :: 0 <= i < |t| && t[i] in SPECIALS ==>
                 0 < i < |t| - 1 && t[i - 1] == ' ' && t[i + 1] == ' '
  {
    PadStrip(s);
    CollapseNoDoubleSpace(Pad(s));
    PadSpaced(s);
    CollapseSpaced(Pad(s), SPECIALS);
    PairsOkIndex(Tokenize(s), SPECIALS);
  }

  /** `tokenize_type`: pad, then repeat the collapsing pass until it is a
      fixpoint.  Each pass that changes the string shortens it. */
  method TokenizeType(s: string) returns (t: string)
    ensures t == Tokenize(s)
    ensures !HasDoubleSpace(t)
    ensures StripSpaces(t) == StripSpaces(s)
    ensures forall i :: 0 <= i < |t| && t[i] in SPECIALS ==>
              0 < i < |t| - 1 && t[i - 1] == ' ' && t[i + 1] == ' '
  {
    t := Pad(s);
    var news := CollapseOnce(t);
    while news != t
      invariant Collapse(t) == Tokenize(s)
      invariant news == CollapseOnce(t)
      decreases |t|
    {
      t := news;
      news := CollapseOnce(t);
    }
    TokenizeProps(s);
  }
}
