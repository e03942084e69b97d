/** The text normaliser of the index builder (`normalize` in
    RAG/build_resume_index.py): a fixed chain of four rewrites.
      1. every "\r\n" becomes "\n", then every remaining "\r" becomes "\n";
      2. every run of spaces and tabs becomes one space;
      3. every run of three or more "\n" becomes "\n\n";
      4. whitespace is stripped from both ends.
    Each regular-expression rewrite is written out as a recursive function
    that scans the string from the left, as the regex engine does. */
module Text {

  /** The characters Python's `str.strip()` removes (those for which
      `str.isspace` holds): \t \n \v \f \r, the separators U+001C..U+001F,
      the space, and the Unicode space separators. */
  predicate IsSpace(c: char)
  {
    || c == ' '
    || ('\t' <= c <= '\r')
    || ('\U{001C}' <= c <= '\U{001F}')
    || c == '\U{0085}' || c == '\U{00A0}' || c == '\U{1680}'
    || ('\U{2000}' <= c <= '\U{200A}')
    || c == '\U{2028}' || c == '\U{2029}' || c == '\U{202F}'
    || c == '\U{205F}' || c == '\U{3000}'
  }

  /** The class `[ \t]` of the horizontal-whitespace rewrite. */
  predicate IsHoriz(c: char) { c == ' ' || c == '\t' }

  // ---------------------------------------------------------------------
  // The shape of normalised text
  // ---------------------------------------------------------------------

  predicate NoCr(s: string) { forall i :: 0 <= i < |s| ==> s[i] != '\r' }

  predicate NoTab(s: string) { forall i :: 0 <= i < |s| ==> s[i] != '\t' }

  predicate NoDoubleSpace(s: string)
  {
    forall i :: 0 <= i < |s| - 1 ==> !(s[i] == ' ' && s[i + 1] == ' ')
  }

  predicate NoTripleNewline(s: string)
  {
    forall i :: 0 <= i < |s| - 2 ==> !(s[i] == '\n' && s[i + 1] == '\n' && s[i + 2] == '\n')
  }

  /** Neither starts nor ends with whitespace. */
  predicate Trimmed(s: string)
  {
    s == [] || (!IsSpace(s[0]) && !IsSpace(s[|s| - 1]))
  }

  /** Everything `normalize` guarantees of its output. */
  predicate Canonical(s: string)
  {
    NoCr(s) && NoTab(s) && NoDoubleSpace(s) && NoTripleNewline(s) && Trimmed(s)
  }

  /** The non-whitespace characters of `s`, in order. */
  function NonSpaceChars(s: string): string
  {
    if s == [] then [] else (if IsSpace(s[0]) then [] else [s[0]]) + NonSpaceChars(s[1..])
  }

  // ---------------------------------------------------------------------
  // Step 1: line endings
  // ---------------------------------------------------------------------

  /** `text.replace("\r\n", "\n")`: non-overlapping, left to right. */
  function UnifyCrLf(s: string): (r: string)
    ensures |r| <= |s|
  {
    if s == [] then []
    else if |s| >= 2 && s[0] == '\r' && s[1] == '\n' then "\n" + UnifyCrLf(s[2..])
    else [s[0]] + UnifyCrLf(s[1..])
  }

  /** `.replace("\r", "\n")`. */
  function CrToLf(s: string): (r: string)
    ensures |r| == |s| && NoCr(r)
    ensures forall i :: 0 <= i < |s| && s[i] != '\r' ==> r[i] == s[i]
    ensures forall i :: 0 <= i < |s| && s[i] == '\r' ==> r[i] == '\n'
  {
    seq(|s|, i requires 0 <= i < |s| => if s[i] == '\r' then '\n' else s[i])
  }

  // ---------------------------------------------------------------------
  // Step 2: `re.sub(r"[ \t]+", " ", text)`
  // ---------------------------------------------------------------------

  /** The length of the leading run of spaces and tabs. */
  function HorizRun(s: string): (n: nat)
    ensures n <= |s|
    ensures forall i :: 0 <= i < n ==> IsHoriz(s[i])
    ensures n < |s| ==> !IsHoriz(s[n])
  {
    if s != [] && IsHoriz(s[0]) then 1 + HorizRun(s[1..]) else 0
  }

  function DropHoriz(s: string): string
  {
    s[HorizRun(s)..]
  }

  function CollapseHoriz(s: string): (r: string)
    ensures |r| <= |s|
    ensures s != [] ==> r != [] && r[0] == (if IsHoriz(s[0]) then ' ' else s[0])
    decreases |s|
  {
    if s == [] then []
    else if IsHoriz(s[0]) then " " + CollapseHoriz(DropHoriz(s[1..]))
    else [s[0]] + CollapseHoriz(s[1..])
  }

  // ---------------------------------------------------------------------
  // Step 3: `re.sub(r"\n{3,}", "\n\n", text)`
  // ---------------------------------------------------------------------

  /** The length of the leading run of line feeds. */
  function NewlineRun(s: string): (n: nat)
    ensures n <= |s|
    ensures forall i :: 0 <= i < n ==> s[i] == '\n'
    ensures n < |s| ==> s[n] != '\n'
  {
    if s != [] && s[0] == '\n' then 1 + NewlineRun(s[1..]) else 0
  }

  /** A maximal run of three or more line feeds becomes two; shorter runs
      are left as they are. */
  function CollapseNewlines(s: string): (r: string)
    ensures |r| <= |s|
    ensures s != [] ==> r != [] && r[0] == s[0]
    decreases |s|
  {
    if s == [] then []
    else if s[0] == '\n' then
      var run := NewlineRun(s);
      (if run >= 3 then "\n\n" else s[..run]) + CollapseNewlines(s[run..])
    else [s[0]] + CollapseNewlines(s[1..])
  }

  // ---------------------------------------------------------------------
  // Step 4: `str.strip()`
  // ---------------------------------------------------------------------

  /** The number of whitespace characters at the start of `s`. */
  function LeadingSpaces(s: string): (n: nat)
    ensures n <= |s|
    ensures forall i :: 0 <= i < n ==> IsSpace(s[i])
    ensures n < |s| ==> !IsSpace(s[n])
  {
    if s != [] && IsSpace(s[0]) then 1 + LeadingSpaces(s[1..]) else 0
  }

  /** The number of whitespace characters at the end of `s`. */
  function TrailingSpaces(s: string): (n: nat)
    ensures n <= |s|
    ensures forall i :: |s| - n <= i < |s| ==> IsSpace(s[i])
    ensures n < |s| ==> !IsSpace(s[|s| - n - 1])
  {
    if s != [] && IsSpace(s[|s| - 1]) then 1 + TrailingSpaces(s[..|s| - 1]) else 0
  }

  function LStrip(s: string): string
  {
    s[LeadingSpaces(s)..]
  }

  function RStrip(s: string): string
  {
    s[..|s| - TrailingSpaces(s)]
  }

  /** Only whitespace at the two ends goes: the result is the piece of `s`
      that starts after its leading whitespace (`LeadingSpaces`), and
      everything after that piece is whitespace too. */
  function Strip(s: string): (r: string)
    ensures |r| <= |s| && Trimmed(r)
    ensures Trimmed(s) ==> r == s
    ensures LeadingSpaces(s) + |r| <= |s| && r == s[LeadingSpaces(s)..LeadingSpaces(s) + |r|]
    ensures forall i :: LeadingSpaces(s) + |r| <= i < |s| ==> IsSpace(s[i])
  {
    RStrip(LStrip(s))
  }

  // ---------------------------------------------------------------------
  // The normaliser
  // ---------------------------------------------------------------------

  function Normalize(s: string): (r: string)
    ensures |r| <= |s|
  {
    Strip(CollapseNewlines(CollapseHoriz(CrToLf(UnifyCrLf(s)))))
  }

  /** The output has no carriage return, no tab, no two spaces in a row,
      no three newlines in a row, and no whitespace at either end. */
  lemma NormalizeCanonical(s: string)
    ensures Canonical(Normalize(s))
  {
    var s2 := CrToLf(UnifyCrLf(s));
    var s3 := CollapseHoriz(s2);
    var s4 := CollapseNewlines(s3);
    CollapseHorizShape(s2);
    CollapseNewlinesShape(s3);
    StripShape(s4);
  }

  // ---------------------------------------------------------------------
  // Each step establishes its part of the shape and keeps the rest
  // ---------------------------------------------------------------------

  lemma NoDoubleSpaceAppend(a: string, t: string)
    requires NoDoubleSpace(a) && NoDoubleSpace(t)
    requires a != [] && t != [] ==> !(a[|a| - 1] == ' ' && t[0] == ' ')
    ensures NoDoubleSpace(a + t)
  {
    var s := a + t;
    forall i | 0 <= i < |s| - 1
      ensures !(s[i] == ' ' && s[i + 1] == ' ')
    {
      if i >= |a| {
        assert s[i] == t[i - |a|] && s[i + 1] == t[i - |a| + 1];
      } else if i + 1 == |a| {
        assert s[i] == a[|a| - 1] && s[i + 1] == t[0];
      } else {
        assert s[i] == a[i] && s[i + 1] == a[i + 1];
      }
    }
  }

  lemma NoTripleNewlineCons(c: char, t: string)
    requires c != '\n' && NoTripleNewline(t)
    ensures NoTripleNewline([c] + t)
  {
    var s := [c] + t;
    forall i | 0 <= i < |s| - 2
      ensures !(s[i] == '\n' && s[i + 1] == '\n' && s[i + 2] == '\n')
    {
      if i > 0 {
        assert s[i] == t[i - 1] && s[i + 1] == t[i] && s[i + 2] == t[i + 1];
      }
    }
  }

  /** A short head glued to text that does not start with a line feed. */
  lemma NoTripleNewlineJoin(a: string, t: string)
    requires |a| <= 2 && NoTripleNewline(t) && (t == [] || t[0] != '\n')
    ensures NoTripleNewline(a + t)
  {
    var s := a + t;
    forall i | 0 <= i < |s| - 2
      ensures !(s[i] == '\n' && s[i + 1] == '\n' && s[i + 2] == '\n')
    {
      if i >= |a| {
        assert s[i] == t[i - |a|] && s[i + 1] == t[i - |a| + 1] && s[i + 2] == t[i - |a| + 2];
      } else if i + 1 == |a| {
        assert s[i + 1] == t[0];
      } else {
        assert s[i + 2] == t[0];
      }
    }
  }

  lemma {:induction false} CollapseHorizShape(s: string)
    ensures NoTab(CollapseHoriz(s)) && NoDoubleSpace(CollapseHoriz(s))
    ensures NoCr(s) ==> NoCr(CollapseHoriz(s))
    decreases |s|
  {
    if s != [] {
      if IsHoriz(s[0]) {
        var rest := DropHoriz(s[1..]);
        CollapseHorizShape(rest);
        NoDoubleSpaceAppend(" ", CollapseHoriz(rest));
      } else {
        CollapseHorizShape(s[1..]);
        NoDoubleSpaceAppend([s[0]], CollapseHoriz(s[1..]));
      }
    }
  }

  lemma {:induction false} CollapseNewlinesShape(s: string)
    ensures NoTripleNewline(CollapseNewlines(s))
    ensures NoCr(s) ==> NoCr(CollapseNewlines(s))
    ensures NoTab(s) ==> NoTab(CollapseNewlines(s))
    ensures NoDoubleSpace(s) ==> NoDoubleSpace(CollapseNewlines(s))
    decreases |s|
  {
    if s != [] {
      var r := CollapseNewlines(s);
      if s[0] == '\n' {
        var run := NewlineRun(s);
        var rest := s[run..];
        var head: string := if run >= 3 then "\n\n" else s[..run];
        var tail := CollapseNewlines(rest);
        assert r == head + tail;
        assert forall i :: 0 <= i < |head| ==> head[i] == '\n';
        assert forall i :: 0 <= i < |rest| ==> rest[i] == s[run + i];
        assert rest == [] || rest[0] == s[run];
        CollapseNewlinesShape(rest);
        NoTripleNewlineJoin(head, tail);
        if NoDoubleSpace(s) {
          assert NoDoubleSpace(rest);
          NoDoubleSpaceAppend(head, tail);
        }
      } else {
        var tail := CollapseNewlines(s[1..]);
        assert r == [s[0]] + tail;
        CollapseNewlinesShape(s[1..]);
        NoTripleNewlineCons(s[0], tail);
        if NoDoubleSpace(s) {
          assert NoDoubleSpace(s[1..]);
          NoDoubleSpaceAppend([s[0]], tail);
        }
      }
    }
  }

  lemma StripShape(s: string)
    ensures NoCr(s) ==> NoCr(Strip(s))
    ensures NoTab(s) ==> NoTab(Strip(s))
    ensures NoDoubleSpace(s) ==> NoDoubleSpace(Strip(s))
    ensures NoTripleNewline(s) ==> NoTripleNewline(Strip(s))
  {
    var a := LeadingSpaces(s);
    SliceShape(s, a, a + |Strip(s)|);
  }

  /** A piece cut out of a text keeps the text's shape. */
  lemma SliceShape(s: string, lo: int, hi: int)
    requires 0 <= lo <= hi <= |s|
    ensures NoCr(s) ==> NoCr(s[lo..hi])
    ensures NoTab(s) ==> NoTab(s[lo..hi])
    ensures NoDoubleSpace(s) ==> NoDoubleSpace(s[lo..hi])
    ensures NoTripleNewline(s) ==> NoTripleNewline(s[lo..hi])
  {
    var r := s[lo..hi];
    assert forall i :: 0 <= i < |r| ==> r[i] == s[lo + i];
  }

  // ---------------------------------------------------------------------
  // What each rewrite produces: it works piece by piece, wherever no match
  // can straddle the cut, and each match becomes its replacement
  // ---------------------------------------------------------------------

  lemma SeqAssoc<T>(a: seq<T>, b: seq<T>, c: seq<T>)
    ensures a + (b + c) == (a + b) + c
  {
  }

  lemma HeadTail(s: string)
    requires s != []
    ensures s == [s[0]] + s[1..]
  {
  }

  lemma TakeAppend(a: string, b: string, k: nat)
    requires k <= |a|
    ensures (a + b)[..k] == a[..k]
  {
  }

  lemma SliceAppend(a: string, b: string, k: nat)
    requires k <= |a|
    ensures (a + b)[k..] == a[k..] + b
  {
  }

  /** `replace("\r\n", "\n")` treats `t` and `u` separately unless `t`
      ends in `\r` and `u` starts with `\n`. */
  lemma {:induction false} UnifyCrLfCut(t: string, u: string)
    requires !(t != [] && t[|t| - 1] == '\r' && u != [] && u[0] == '\n')
    ensures UnifyCrLf(t + u) == UnifyCrLf(t) + UnifyCrLf(u)
    decreases |t|
  {
    if t == [] {
      assert t + u == u;
    } else {
      var s := t + u;
      assert s[0] == t[0] && s[1..] == t[1..] + u;
      if |t| >= 2 && t[0] == '\r' && t[1] == '\n' {
        assert s[1] == t[1] && s[2..] == t[2..] + u;
        UnifyCrLfCut(t[2..], u);
        calc {
          UnifyCrLf(s);
          "\n" + UnifyCrLf(t[2..] + u);
          "\n" + (UnifyCrLf(t[2..]) + UnifyCrLf(u));
          { SeqAssoc("\n", UnifyCrLf(t[2..]), UnifyCrLf(u)); }
          ("\n" + UnifyCrLf(t[2..])) + UnifyCrLf(u);
        }
      } else {
        if |t| >= 2 {
          assert s[1] == t[1];
        } else if t[0] == '\r' && |s| >= 2 {
          assert s[1] == u[0];
        }
        assert !(|s| >= 2 && s[0] == '\r' && s[1] == '\n');
        UnifyCrLfCut(t[1..], u);
        calc {
          UnifyCrLf(s);
          [t[0]] + UnifyCrLf(t[1..] + u);
          [t[0]] + (UnifyCrLf(t[1..]) + UnifyCrLf(u));
          { SeqAssoc([t[0]], UnifyCrLf(t[1..]), UnifyCrLf(u)); }
          ([t[0]] + UnifyCrLf(t[1..])) + UnifyCrLf(u);
        }
      }
    }
  }

  /** Each `"\r\n"` becomes one `"\n"`, and the text on either side is
      rewritten on its own. */
  lemma UnifyCrLfSplice(t: string, u: string)
    ensures UnifyCrLf(t + "\r\n" + u) == UnifyCrLf(t) + "\n" + UnifyCrLf(u)
  {
    var crlf := "\r\n";
    assert crlf[2..] == [];
    assert UnifyCrLf(crlf) == "\n";
    UnifyCrLfCut(crlf, u);
    UnifyCrLfCut(t, crlf + u);
    calc {
      UnifyCrLf(t + crlf + u);
      { SeqAssoc(t, crlf, u); }
      UnifyCrLf(t + (crlf + u));
      UnifyCrLf(t) + ("\n" + UnifyCrLf(u));
      { SeqAssoc(UnifyCrLf(t), "\n", UnifyCrLf(u)); }
      UnifyCrLf(t) + "\n" + UnifyCrLf(u);
    }
  }

  /** The leading run of spaces and tabs of `a + b`. */
  lemma {:induction false} HorizRunAppend(a: string, b: string)
    ensures HorizRun(a + b) == if HorizRun(a) < |a| then HorizRun(a) else |a| + HorizRun(b)
    decreases |a|
  {
    if a != [] {
      assert (a + b)[0] == a[0] && (a + b)[1..] == a[1..] + b;
      HorizRunAppend(a[1..], b);
    } else {
      assert a + b == b;
    }
  }

  /** Dropping the leading run of `a + b` drops that of `a`, unless the
      run covers all of `a` and carries on into `b`. */
  lemma DropHorizAppend(a: string, b: string)
    requires HorizRun(a) < |a| || b == [] || !IsHoriz(b[0])
    ensures DropHoriz(a + b) == DropHoriz(a) + b
  {
    HorizRunAppend(a, b);
    SliceAppend(a, b, HorizRun(a));
  }

  /** The space/tab rewrite treats `t` and `u` separately unless both
      touch the cut with a space or tab. */
  lemma {:induction false} CollapseHorizCut(t: string, u: string)
    requires !(t != [] && IsHoriz(t[|t| - 1]) && u != [] && IsHoriz(u[0]))
    ensures CollapseHoriz(t + u) == CollapseHoriz(t) + CollapseHoriz(u)
    decreases |t|, 1
  {
    if t == [] {
      assert t + u == u;
    } else if IsHoriz(t[0]) {
      CollapseHorizCutRun(t, u);
    } else {
      var s := t + u;
      assert s[0] == t[0] && s[1..] == t[1..] + u;
      CollapseHorizCut(t[1..], u);
      calc {
        CollapseHoriz(s);
        [t[0]] + CollapseHoriz(t[1..] + u);
        [t[0]] + (CollapseHoriz(t[1..]) + CollapseHoriz(u));
        { SeqAssoc([t[0]], CollapseHoriz(t[1..]), CollapseHoriz(u)); }
        ([t[0]] + CollapseHoriz(t[1..])) + CollapseHoriz(u);
      }
    }
  }

  /** The case of `CollapseHorizCut` where `t` starts with a run. */
  lemma {:induction false} CollapseHorizCutRun(t: string, u: string)
    requires t != [] && IsHoriz(t[0])
    requires !(IsHoriz(t[|t| - 1]) && u != [] && IsHoriz(u[0]))
    ensures CollapseHoriz(t + u) == CollapseHoriz(t) + CollapseHoriz(u)
    decreases |t|, 0
  {
    var s := t + u;
    var rest := DropHoriz(t[1..]);
    assert s[0] == t[0] && s[1..] == t[1..] + u;
    if HorizRun(t[1..]) == |t| - 1 && |t| >= 2 {
      assert t[|t| - 1] == t[1..][|t| - 2];
    }
    DropHorizAppend(t[1..], u);
    CollapseHorizCut(rest, u);
    calc {
      CollapseHoriz(s);
      " " + CollapseHoriz(rest + u);
      " " + (CollapseHoriz(rest) + CollapseHoriz(u));
      { SeqAssoc(" ", CollapseHoriz(rest), CollapseHoriz(u)); }
      (" " + CollapseHoriz(rest)) + CollapseHoriz(u);
    }
  }

  /** A string made only of spaces and tabs is one run. */
  lemma {:induction false} HorizRunAll(h: string)
    requires forall i :: 0 <= i < |h| ==> IsHoriz(h[i])
    ensures HorizRun(h) == |h|
    decreases |h|
  {
    if h != [] {
      HorizRunAll(h[1..]);
    }
  }

  /** A run of spaces and tabs on its own becomes one space. */
  lemma CollapseHorizRun(h: string)
    requires h != [] && forall i :: 0 <= i < |h| ==> IsHoriz(h[i])
    ensures CollapseHoriz(h) == " "
  {
    HorizRunAll(h[1..]);
    assert DropHoriz(h[1..]) == [];
  }

  /** A run of spaces and tabs becomes one space, and the text on either
      side of the run is rewritten on its own. */
  lemma CollapseHorizSplice(t: string, h: string, u: string)
    requires h != [] && forall i :: 0 <= i < |h| ==> IsHoriz(h[i])
    requires t == [] || !IsHoriz(t[|t| - 1])
    requires u == [] || !IsHoriz(u[0])
    ensures CollapseHoriz(t + h + u) == CollapseHoriz(t) + " " + CollapseHoriz(u)
  {
    CollapseHorizCut(h, u);
    CollapseHorizRun(h);
    CollapseHorizCut(t, h + u);
    calc {
      CollapseHoriz(t + h + u);
      { SeqAssoc(t, h, u); }
      CollapseHoriz(t + (h + u));
      CollapseHoriz(t) + (" " + CollapseHoriz(u));
      { SeqAssoc(CollapseHoriz(t), " ", CollapseHoriz(u)); }
      CollapseHoriz(t) + " " + CollapseHoriz(u);
    }
  }

  /** The leading run of line feeds of `a + b`. */
  lemma {:induction false} NewlineRunAppend(a: string, b: string)
    ensures NewlineRun(a + b) == if NewlineRun(a) < |a| then NewlineRun(a) else |a| + NewlineRun(b)
    decreases |a|
  {
    if a != [] {
      assert (a + b)[0] == a[0] && (a + b)[1..] == a[1..] + b;
      NewlineRunAppend(a[1..], b);
    } else {
      assert a + b == b;
    }
  }

  /** The newline rewrite treats `t` and `u` separately unless both touch
      the cut with a line feed. */
  lemma {:induction false} CollapseNewlinesCut(t: string, u: string)
    requires !(t != [] && t[|t| - 1] == '\n' && u != [] && u[0] == '\n')
    ensures CollapseNewlines(t + u) == CollapseNewlines(t) + CollapseNewlines(u)
    decreases |t|, 1
  {
    if t == [] {
      assert t + u == u;
    } else if t[0] == '\n' {
      CollapseNewlinesCutRun(t, u);
    } else {
      var s := t + u;
      assert s[0] == t[0];
      SliceAppend(t, u, 1);
      CollapseNewlinesCut(t[1..], u);
      calc {
        CollapseNewlines(s);
        [t[0]] + CollapseNewlines(t[1..] + u);
        [t[0]] + (CollapseNewlines(t[1..]) + CollapseNewlines(u));
        { SeqAssoc([t[0]], CollapseNewlines(t[1..]), CollapseNewlines(u)); }
        ([t[0]] + CollapseNewlines(t[1..])) + CollapseNewlines(u);
      }
    }
  }

  /** The case of `CollapseNewlinesCut` where `t` starts with a run. */
  lemma {:induction false} CollapseNewlinesCutRun(t: string, u: string)
    requires t != [] && t[0] == '\n'
    requires !(t[|t| - 1] == '\n' && u != [] && u[0] == '\n')
    ensures CollapseNewlines(t + u) == CollapseNewlines(t) + CollapseNewlines(u)
    decreases |t|, 0
  {
    var s := t + u;
    var k := NewlineRun(t);
    NewlineRunAppend(t, u);
    assert NewlineRun(s) == k;
    TakeAppend(t, u, k);
    SliceAppend(t, u, k);
    CollapseNewlinesCut(t[k..], u);
    var head := if k >= 3 then "\n\n" else t[..k];
    calc {
      CollapseNewlines(s);
      head + CollapseNewlines(t[k..] + u);
      head + (CollapseNewlines(t[k..]) + CollapseNewlines(u));
      { SeqAssoc(head, CollapseNewlines(t[k..]), CollapseNewlines(u)); }
      (head + CollapseNewlines(t[k..])) + CollapseNewlines(u);
    }
  }

  /** A string made only of line feeds is one run. */
  lemma {:induction false} NewlineRunAll(n: string)
    requires forall i :: 0 <= i < |n| ==> n[i] == '\n'
    ensures NewlineRun(n) == |n|
    decreases |n|
  {
    if n != [] {
      NewlineRunAll(n[1..]);
    }
  }

  /** A run of line feeds on its own becomes `"\n\n"` when it is three or
      more long, and stays as it is otherwise. */
  lemma CollapseNewlinesRun(n: string)
    requires n != [] && forall i :: 0 <= i < |n| ==> n[i] == '\n'
    ensures CollapseNewlines(n) == if |n| >= 3 then "\n\n" else n
  {
    NewlineRunAll(n);
    assert n[..|n|] == n && n[|n|..] == [];
  }

  /** A run of three or more line feeds becomes exactly `"\n\n"`, a shorter
      run is kept, and the text on either side is rewritten on its own. */
  lemma CollapseNewlinesSplice(t: string, n: string, u: string)
    requires n != [] && forall i :: 0 <= i < |n| ==> n[i] == '\n'
    requires t == [] || t[|t| - 1] != '\n'
    requires u == [] || u[0] != '\n'
    ensures CollapseNewlines(t + n + u)
         == CollapseNewlines(t) + (if |n| >= 3 then "\n\n" else n) + CollapseNewlines(u)
  {
    var mid := if |n| >= 3 then "\n\n" else n;
    CollapseNewlinesCut(n, u);
    CollapseNewlinesRun(n);
    CollapseNewlinesCut(t, n + u);
    calc {
      CollapseNewlines(t + n + u);
      { SeqAssoc(t, n, u); }
      CollapseNewlines(t + (n + u));
      CollapseNewlines(t) + (mid + CollapseNewlines(u));
      { SeqAssoc(CollapseNewlines(t), mid, CollapseNewlines(u)); }
      CollapseNewlines(t) + mid + CollapseNewlines(u);
    }
  }

  // ---------------------------------------------------------------------
  // Each step leaves text that is already in its shape unchanged
  // ---------------------------------------------------------------------

  lemma {:induction false} UnifyCrLfIdentity(s: string)
    requires forall i :: 0 <= i < |s| - 1 ==> !(s[i] == '\r' && s[i + 1] == '\n')
    ensures UnifyCrLf(s) == s
    decreases |s|
  {
    if s != [] {
      var t := s[1..];
      UnifyCrLfIdentity(t);
      HeadTail(s);
    }
  }

  lemma NoCrNoCrLf(s: string)
    requires NoCr(s)
    ensures forall i :: 0 <= i < |s| - 1 ==> !(s[i] == '\r' && s[i + 1] == '\n')
  {
  }

  lemma {:induction false} CollapseHorizIdentity(s: string)
    requires NoTab(s) && NoDoubleSpace(s)
    ensures CollapseHoriz(s) == s
    decreases |s|
  {
    if s != [] {
      CollapseHorizIdentity(s[1..]);
      if IsHoriz(s[0]) {
        assert s[0] == ' ';
        assert s[1..] == [] || !IsHoriz(s[1]);
        assert DropHoriz(s[1..]) == s[1..];
      }
      assert s == [s[0]] + s[1..];
    }
  }

  lemma {:induction false} CollapseNewlinesIdentity(s: string)
    requires NoTripleNewline(s)
    ensures CollapseNewlines(s) == s
    decreases |s|
  {
    if s != [] {
      if s[0] == '\n' {
        var run := NewlineRun(s);
        var rest := s[run..];
        if |s| > 2 {
          assert !(s[0] == '\n' && s[1] == '\n' && s[2] == '\n');
        }
        assert run <= 2;
        assert NoTripleNewline(rest) by {
          assert forall i :: 0 <= i < |rest| ==> rest[i] == s[run + i];
        }
        CollapseNewlinesIdentity(rest);
        assert s == s[..run] + rest;
      } else {
        CollapseNewlinesIdentity(s[1..]);
        assert s == [s[0]] + s[1..];
      }
    }
  }

  /** Canonical text is exactly the text `normalize` leaves unchanged. */
  lemma FixedPointIffCanonical(t: string)
    ensures Normalize(t) == t <==> Canonical(t)
  {
    NormalizeCanonical(t);
    if Canonical(t) {
      CanonicalFixed(t);
    }
  }

  lemma CanonicalFixed(t: string)
    requires Canonical(t)
    ensures Normalize(t) == t
  {
    NoCrNoCrLf(t);
    UnifyCrLfIdentity(t);
    assert CrToLf(t) == t;
    CollapseHorizIdentity(t);
    CollapseNewlinesIdentity(t);
  }

  /** `normalize(normalize(t)) == normalize(t)`. */
  lemma NormalizeIdempotent(s: string)
    ensures Normalize(Normalize(s)) == Normalize(s)
  {
    NormalizeCanonical(s);
    FixedPointIffCanonical(Normalize(s));
  }

  // ---------------------------------------------------------------------
  // The non-whitespace characters survive every step
  // ---------------------------------------------------------------------

  lemma {:induction false} NonSpaceCharsAppend(a: string, b: string)
    ensures NonSpaceChars(a + b) == NonSpaceChars(a) + NonSpaceChars(b)
    decreases |a|
  {
    if a != [] {
      assert (a + b)[1..] == a[1..] + b;
      NonSpaceCharsAppend(a[1..], b);
    } else {
      assert a + b == b;
    }
  }

  lemma {:induction false} NonSpaceCharsOfSpaces(s: string)
    requires forall i :: 0 <= i < |s| ==> IsSpace(s[i])
    ensures NonSpaceChars(s) == []
    decreases |s|
  {
    if s != [] {
      NonSpaceCharsOfSpaces(s[1..]);
    }
  }

  lemma {:induction false} UnifyCrLfKeeps(s: string)
    ensures NonSpaceChars(UnifyCrLf(s)) == NonSpaceChars(s)
    decreases |s|
  {
    if s != [] {
      if |s| >= 2 && s[0] == '\r' && s[1] == '\n' {
        UnifyCrLfKeeps(s[2..]);
        NonSpaceCharsAppend("\n", UnifyCrLf(s[2..]));
        assert s[1..][1..] == s[2..];
      } else {
        UnifyCrLfKeeps(s[1..]);
        NonSpaceCharsAppend([s[0]], UnifyCrLf(s[1..]));
      }
    }
  }

  lemma {:induction false} CrToLfKeeps(s: string)
    ensures NonSpaceChars(CrToLf(s)) == NonSpaceChars(s)
    decreases |s|
  {
    if s != [] {
      assert CrToLf(s)[1..] == CrToLf(s[1..]);
      CrToLfKeeps(s[1..]);
    }
  }

  lemma {:induction false} CollapseHorizKeeps(s: string)
    ensures NonSpaceChars(CollapseHoriz(s)) == NonSpaceChars(s)
    decreases |s|
  {
    if s != [] {
      if IsHoriz(s[0]) {
        var k := HorizRun(s[1..]);
        var rest := DropHoriz(s[1..]);
        CollapseHorizKeeps(rest);
        NonSpaceCharsAppend(" ", CollapseHoriz(rest));
        assert s[1..] == s[1..][..k] + rest;
        NonSpaceCharsOfSpaces(s[1..][..k]);
        NonSpaceCharsAppend(s[1..][..k], rest);
      } else {
        CollapseHorizKeeps(s[1..]);
        NonSpaceCharsAppend([s[0]], CollapseHoriz(s[1..]));
      }
    }
  }

  lemma {:induction false} CollapseNewlinesKeeps(s: string)
    ensures NonSpaceChars(CollapseNewlines(s)) == NonSpaceChars(s)
    decreases |s|
  {
    if s != [] {
      if s[0] == '\n' {
        var run := NewlineRun(s);
        var rest := s[run..];
        var head: string := if run >= 3 then "\n\n" else s[..run];
        CollapseNewlinesKeeps(rest);
        NonSpaceCharsAppend(head, CollapseNewlines(rest));
        NonSpaceCharsOfSpaces(head);
        assert s == s[..run] + rest;
        NonSpaceCharsOfSpaces(s[..run]);
        NonSpaceCharsAppend(s[..run], rest);
      } else {
        CollapseNewlinesKeeps(s[1..]);
        NonSpaceCharsAppend([s[0]], CollapseNewlines(s[1..]));
      }
    }
  }

  lemma LStripKeeps(s: string)
    ensures NonSpaceChars(LStrip(s)) == NonSpaceChars(s)
  {
    var k := LeadingSpaces(s);
    var p, l := s[..k], s[k..];
    assert s == p + l;
    assert forall i :: 0 <= i < |p| ==> IsSpace(p[i]) by {
      forall i | 0 <= i < |p| ensures IsSpace(p[i]) { assert p[i] == s[i]; }
    }
    NonSpaceCharsOfSpaces(p);
    NonSpaceCharsAppend(p, l);
  }

  lemma RStripKeeps(s: string)
    ensures NonSpaceChars(RStrip(s)) == NonSpaceChars(s)
  {
    var k := |s| - TrailingSpaces(s);
    var r, p := s[..k], s[k..];
    assert s == r + p;
    assert forall i :: 0 <= i < |p| ==> IsSpace(p[i]) by {
      forall i | 0 <= i < |p| ensures IsSpace(p[i]) { assert p[i] == s[k + i]; }
    }
    NonSpaceCharsOfSpaces(p);
    NonSpaceCharsAppend(r, p);
  }

  lemma StripKeeps(s: string)
    ensures NonSpaceChars(Strip(s)) == NonSpaceChars(s)
  {
    LStripKeeps(s);
    RStripKeeps(LStrip(s));
  }

  /** The non-whitespace characters of the text are kept, in content and
      order: normalising only ever rewrites or drops whitespace. */
  lemma NormalizeKeepsNonSpace(s: string)
    ensures NonSpaceChars(Normalize(s)) == NonSpaceChars(s)
  {
    var s1 := UnifyCrLf(s);
    var s2 := CrToLf(s1);
    var s3 := CollapseHoriz(s2);
    var s4 := CollapseNewlines(s3);
    UnifyCrLfKeeps(s);
    CrToLfKeeps(s1);
    CollapseHorizKeeps(s2);
    CollapseNewlinesKeeps(s3);
    StripKeeps(s4);
  }

  /** Non-empty trimmed text starts with a visible character. */
  lemma TrimmedVisible(s: string)
    requires s != [] && Trimmed(s)
    ensures NonSpaceChars(s) != []
  {
    assert s == [s[0]] + s[1..];
    NonSpaceCharsAppend([s[0]], s[1..]);
  }

  /** Text with a visible character normalises to non-empty text. */
  lemma NormalizeNotEmpty(s: string)
    requires NonSpaceChars(s) != []
    ensures Normalize(s) != []
  {
    NormalizeKeepsNonSpace(s);
  }
}
