/** Normalisation of a new todo's title: every run of whitespace becomes one
    space, then whitespace is trimmed from both ends (src/App.tsx:115). */
module Title {

  /** The characters JavaScript's `\s` matches; `String.prototype.trim`
      removes exactly the same set (WhiteSpace and LineTerminator). */
  predicate IsSpace(c: char) {
    c == ' ' || c == '\t' || c == '\n' || c == '\U{000B}' || c == '\U{000C}' || c == '\r'
    || c == '\U{00A0}' || c == '\U{1680}' || ('\U{2000}' <= c <= '\U{200A}')
    || c == '\U{2028}' || c == '\U{2029}' || c == '\U{202F}' || c == '\U{205F}'
    || c == '\U{3000}' || c == '\U{FEFF}'
  }

  /** The text of `s` with its whitespace taken out: what normalisation must keep. */
  function NonSpaces(s: string): string {
    if s == [] then []
    else (if IsSpace(s[0]) then [] else [s[0]]) + NonSpaces(s[1..])
  }

  /** No whitespace other than plain spaces, and never two whitespace
      characters in a row. */
  predicate Collapsed(s: string) {
    && (forall i :: 0 <= i < |s| && IsSpace(s[i]) ==> s[i] == ' ')
    && (forall i, j :: 0 <= i < |s| && j == i + 1 && j < |s| ==> !(IsSpace(s[i]) && IsSpace(s[j])))
  }

  /** `s` with its leading whitespace removed (trimStart). */
  function DropSpaces(s: string): (r: string)
    ensures |r| <= |s| && r == s[|s| - |r|..]
    ensures r == [] || !IsSpace(r[0])
    ensures forall i :: 0 <= i < |s| - |r| ==> IsSpace(s[i])
    ensures s != [] && IsSpace(s[0]) ==> |r| < |s|
  {
    if s != [] && IsSpace(s[0]) then DropSpaces(s[1..]) else s
  }

  /** `s` with its trailing whitespace removed (trimEnd). */
  function DropTrailingSpaces(s: string): (r: string)
    ensures |r| <= |s| && r == s[..|r|]
    ensures r == [] || !IsSpace(r[|r| - 1])
    ensures forall i :: |r| <= i < |s| ==> IsSpace(s[i])
  {
    if s != [] && IsSpace(s[|s| - 1]) then DropTrailingSpaces(s[..|s| - 1]) else s
  }

  /** `replace(/\s+/g, ' ')`: every maximal run of whitespace becomes one space. */
  function Collapse(s: string): (r: string)
    ensures r == [] <==> s == []
    ensures s != [] && !IsSpace(s[0]) ==> r[0] == s[0]
    ensures s != [] && IsSpace(s[0]) ==> r[0] == ' '
    decreases |s|
  {
    if s == [] then []
    else if IsSpace(s[0]) then
      var rest := DropSpaces(s);
      [' '] + Collapse(rest)
    else [s[0]] + Collapse(s[1..])
  }

  /** `trim()`: whitespace removed from both ends. */
  function Trim(s: string): (r: string)
    ensures r == [] || (!IsSpace(r[0]) && !IsSpace(r[|r| - 1]))
    decreases |s|
  {
    if s != [] && IsSpace(s[0]) then Trim(s[1..])
    else if s != [] && IsSpace(s[|s| - 1]) then Trim(s[..|s| - 1])
    else s
  }

  /** Trimming is trimStart followed by trimEnd. */
  lemma {:induction false} TrimIsDrops(s: string)
    ensures Trim(s) == DropTrailingSpaces(DropSpaces(s))
    decreases |s|
  {
    if s != [] && IsSpace(s[0]) {
      TrimIsDrops(s[1..]);
    } else if s != [] && IsSpace(s[|s| - 1]) {
      var init := s[..|s| - 1];
      TrimIsDrops(init);
      assert init == [] || init[0] == s[0];
      assert DropSpaces(init) == init;
      assert DropTrailingSpaces(s) == DropTrailingSpaces(init);
    } else {
      assert DropSpaces(s) == s;
    }
  }

  /** The title the add handler submits. */
  function Normalize(s: string): string {
    Trim(Collapse(s))
  }

  /** A normalised title has no whitespace at either end, no whitespace but
      plain spaces, and never two whitespace characters in a row. */
  lemma NormalizeShape(s: string)
    ensures var r := Normalize(s); r == [] || (!IsSpace(r[0]) && !IsSpace(r[|r| - 1]))
    ensures Collapsed(Normalize(s))
  {
    CollapseIsCollapsed(s);
    TrimKeeps(Collapse(s));
  }

  lemma {:induction false} NonSpacesAppend(a: string, b: string)
    ensures NonSpaces(a + b) == NonSpaces(a) + NonSpaces(b)
  {
    if a == [] {
      assert a + b == b;
    } else {
      assert (a + b)[0] == a[0];
      assert (a + b)[1..] == a[1..] + b;
      NonSpacesAppend(a[1..], b);
    }
  }

  lemma {:induction false} NonSpacesDropSpaces(s: string)
    ensures NonSpaces(DropSpaces(s)) == NonSpaces(s)
  {
    if s != [] && IsSpace(s[0]) {
      NonSpacesDropSpaces(s[1..]);
    }
  }

  lemma {:induction false} NonSpacesDropTrailingSpaces(s: string)
    ensures NonSpaces(DropTrailingSpaces(s)) == NonSpaces(s)
  {
    if s != [] && IsSpace(s[|s| - 1]) {
      var init := s[..|s| - 1];
      NonSpacesDropTrailingSpaces(init);
      assert s == init + [s[|s| - 1]];
      NonSpacesAppend(init, [s[|s| - 1]]);
      assert NonSpaces([s[|s| - 1]]) == [];
    }
  }

  lemma CollapsedSlice(s: string, lo: int, hi: int)
    requires 0 <= lo <= hi <= |s|
    ensures Collapsed(s) ==> Collapsed(s[lo..hi])
  {
    if !Collapsed(s) { return; }
    var t := s[lo..hi];
    forall i, j | 0 <= i && j == i + 1 && j < |t|
      ensures !(IsSpace(t[i]) && IsSpace(t[j]))
    {
      assert t[i] == s[lo + i] && t[j] == s[lo + j];
    }
  }

  /** Trimming keeps the text, and keeps a collapsed string collapsed. */
  lemma TrimKeeps(s: string)
    ensures NonSpaces(Trim(s)) == NonSpaces(s)
    ensures Collapsed(s) ==> Collapsed(Trim(s))
  {
    TrimIsDrops(s);
    NonSpacesDropSpaces(s);
    NonSpacesDropTrailingSpaces(DropSpaces(s));
    TrimKeepsCollapsed(s);
  }

  lemma TrimKeepsCollapsed(s: string)
    ensures Collapsed(s) ==> Collapsed(DropTrailingSpaces(DropSpaces(s)))
  {
    if Collapsed(s) {
      var front := DropSpaces(s);
      var r := DropTrailingSpaces(front);
      CollapsedSlice(s, |s| - |front|, |s|);
      assert front == s[|s| - |front|..|s|];
      assert Collapsed(front);
      CollapsedSlice(front, 0, |r|);
      assert r == front[0..|r|];
    }
  }

  /** After collapsing, whitespace is single plain spaces only. */
  lemma {:induction false} CollapseIsCollapsed(s: string)
    ensures Collapsed(Collapse(s))
    decreases |s|
  {
    if s == [] {
    } else if IsSpace(s[0]) {
      var rest := DropSpaces(s);
      CollapseIsCollapsed(rest);
      var r := Collapse(rest);
      var t := [' '] + r;
      forall i, j | 0 <= i < |t| && j == i + 1 && j < |t|
        ensures !(IsSpace(t[i]) && IsSpace(t[j]))
      {
        if i > 0 { assert t[i] == r[i - 1] && t[j] == r[j - 1]; }
      }
    } else {
      CollapseIsCollapsed(s[1..]);
      var r := Collapse(s[1..]);
      var t := [s[0]] + r;
      forall i, j | 0 <= i < |t| && j == i + 1 && j < |t|
        ensures !(IsSpace(t[i]) && IsSpace(t[j]))
      {
        if i > 0 { assert t[i] == r[i - 1] && t[j] == r[j - 1]; }
      }
    }
  }

  /** Collapsing keeps every non-whitespace character, in order. */
  lemma {:induction false} CollapseKeepsText(s: string)
    ensures NonSpaces(Collapse(s)) == NonSpaces(s)
    decreases |s|
  {
    if s == [] {
    } else if IsSpace(s[0]) {
      var rest := DropSpaces(s);
      CollapseKeepsText(rest);
      NonSpacesDropSpaces(s);
      NonSpacesAppend([' '], Collapse(rest));
    } else {
      CollapseKeepsText(s[1..]);
      NonSpacesAppend([s[0]], Collapse(s[1..]));
    }
  }

  /** A string already in collapsed form is left alone by Collapse. */
  lemma {:induction false} CollapseFixesCollapsed(s: string)
    requires Collapsed(s)
    ensures Collapse(s) == s
    decreases |s|
  {
    if s != [] {
      CollapsedSlice(s, 1, |s|);
      CollapseFixesCollapsed(s[1..]);
      if IsSpace(s[0]) {
        assert s[0] == ' ';
        if |s| > 1 {
          var i, j := 0, 1;
          assert !(IsSpace(s[i]) && IsSpace(s[j]));
          assert s[1..][0] == s[1];
        }
        assert DropSpaces(s[1..]) == s[1..];
        assert DropSpaces(s) == s[1..];
        assert [s[0]] + s[1..] == s;
      } else {
        assert [s[0]] + s[1..] == s;
      }
    }
  }

  /** Normalising a title twice gives the same title as normalising it once. */
  lemma NormalizeIdempotent(s: string)
    ensures Normalize(Normalize(s)) == Normalize(s)
  {
    var n := Normalize(s);
    NormalizeShape(s);
    CollapseFixesCollapsed(n);
    assert DropSpaces(n) == n;
    assert DropTrailingSpaces(n) == n;
  }

  /** Normalising keeps the title's text: only whitespace is changed. */
  lemma NormalizeKeepsText(s: string)
    ensures NonSpaces(Normalize(s)) == NonSpaces(s)
  {
    CollapseKeepsText(s);
    TrimKeeps(Collapse(s));
  }

  lemma {:induction false} NonSpacesEmptyIff(s: string)
    ensures NonSpaces(s) == [] <==> forall i :: 0 <= i < |s| ==> IsSpace(s[i])
  {
    if s != [] {
      NonSpacesEmptyIff(s[1..]);
      assert forall i :: 1 <= i < |s| ==> s[i] == s[1..][i - 1];
    }
  }

  /** The add handler's emptiness test: a title normalises to "" exactly
      when it consists of whitespace only. */
  lemma NormalizeEmptyIff(s: string)
    ensures Normalize(s) == [] <==> forall i :: 0 <= i < |s| ==> IsSpace(s[i])
  {
    var n := Normalize(s);
    NormalizeShape(s);
    NormalizeKeepsText(s);
    NonSpacesEmptyIff(s);
    if n != [] {
      assert NonSpaces(n) == [n[0]] + NonSpaces(n[1..]);
    }
  }

  lemma ConsAppend(w: string, c: string)
    requires w != []
    ensures [w[0]] + (w[1..] + c) == w + c
  {
  }

  /** Collapse keeps a word with no whitespace in it as it is. */
  lemma {:induction false} CollapseWord(w: string, t: string)
    requires forall i :: 0 <= i < |w| ==> !IsSpace(w[i])
    ensures Collapse(w + t) == w + Collapse(t)
  {
    if w == [] {
      assert w + t == t;
    } else {
      var wt := w + t;
      assert wt[0] == w[0] && !IsSpace(wt[0]);
      assert wt[1..] == w[1..] + t;
      assert Collapse(wt) == [w[0]] + Collapse(w[1..] + t);
      CollapseWord(w[1..], t);
      ConsAppend(w, Collapse(t));
    }
  }

  lemma {:induction false} DropRun(run: string, t: string)
    requires forall i :: 0 <= i < |run| ==> IsSpace(run[i])
    requires t == [] || !IsSpace(t[0])
    ensures DropSpaces(run + t) == t
  {
    if run == [] {
      assert run + t == t;
    } else {
      assert (run + t)[1..] == run[1..] + t;
      DropRun(run[1..], t);
    }
  }

  /** Collapse turns a whole run of whitespace into one space. */
  lemma CollapseRun(run: string, t: string)
    requires run != [] && forall i :: 0 <= i < |run| ==> IsSpace(run[i])
    requires t == [] || !IsSpace(t[0])
    ensures Collapse(run + t) == " " + Collapse(t)
  {
    DropRun(run, t);
  }

  predicate AllSpaces(s: string) {
    forall i :: 0 <= i < |s| ==> IsSpace(s[i])
  }

  predicate IsWord(s: string) {
    s != [] && forall i :: 0 <= i < |s| ==> !IsSpace(s[i])
  }

  /** Collapse of optional leading whitespace followed by a word. */
  lemma CollapseLead(a: string, t: string)
    requires AllSpaces(a) && (t == [] || !IsSpace(t[0]))
    ensures Collapse(a + t) == (if a == [] then [] else " ") + Collapse(t)
  {
    if a == [] {
      assert a + t == t;
    } else {
      CollapseRun(a, t);
    }
  }

  function Pad(a: string): string {
    if a == [] then [] else " "
  }

  lemma CollapseTail(b: string, v: string, c: string)
    requires AllSpaces(b) && AllSpaces(c) && b != [] && IsWord(v)
    ensures Collapse(b + (v + c)) == " " + (v + Pad(c))
  {
    CollapseLead(c, []);
    assert c + [] == c;
    CollapseWord(v, c);
    assert (v + c)[0] == v[0];
    CollapseLead(b, v + c);
  }

  lemma CollapseTwoWords(a: string, u: string, rest: string)
    requires AllSpaces(a) && IsWord(u)
    ensures Collapse(a + (u + rest)) == Pad(a) + (u + Collapse(rest))
  {
    assert (u + rest)[0] == u[0];
    CollapseWord(u, rest);
    CollapseLead(a, u + rest);
  }

  lemma TrimPadded(a: string, body: string, c: string)
    requires body != [] && !IsSpace(body[0]) && !IsSpace(body[|body| - 1])
    ensures Trim(Pad(a) + (body + Pad(c))) == body
  {
    TrimIsDrops(Pad(a) + (body + Pad(c)));
    DropsPadded(a, body, c);
  }

  lemma DropsPadded(a: string, body: string, c: string)
    requires body != [] && !IsSpace(body[0]) && !IsSpace(body[|body| - 1])
    ensures DropTrailingSpaces(DropSpaces(Pad(a) + (body + Pad(c)))) == body
  {
    var t := body + Pad(c);
    assert t[0] == body[0];
    DropPad(a, t);
    DropTrailingPad(body, c);
  }

  lemma DropPad(a: string, t: string)
    requires t == [] || !IsSpace(t[0])
    ensures DropSpaces(Pad(a) + t) == t
  {
    if a == [] {
      assert Pad(a) + t == t;
    } else {
      assert (Pad(a) + t)[1..] == t;
    }
  }

  lemma DropTrailingPad(body: string, c: string)
    requires body != [] && !IsSpace(body[|body| - 1])
    ensures DropTrailingSpaces(body + Pad(c)) == body
  {
    var t := body + Pad(c);
    if c == [] {
      assert t == body;
    } else {
      assert t[..|t| - 1] == body;
    }
  }

  /** Two words separated, preceded and followed by any whitespace normalise
      to the two words joined by one space: `"  hello   world  "` becomes
      `"hello world"`. */
  lemma NormalizeTwoWords(a: string, u: string, b: string, v: string, c: string)
    requires AllSpaces(a) && AllSpaces(b) && AllSpaces(c) && b != []
    requires IsWord(u) && IsWord(v)
    ensures Normalize(a + u + b + v + c) == u + " " + v
  {
    var rest := b + (v + c);
    var body := u + " " + v;
    calc {
      Collapse(a + u + b + v + c);
      { Associate(a, u, b, v, c); }
      Collapse(a + (u + rest));
      { CollapseTwoWords(a, u, rest); }
      Pad(a) + (u + Collapse(rest));
      { CollapseTail(b, v, c); }
      Pad(a) + (u + (" " + (v + Pad(c))));
      { Associate([], u, " ", v, Pad(c)); }
      Pad(a) + (body + Pad(c));
    }
    assert body[0] == u[0] && body[|body| - 1] == v[|v| - 1];
    TrimPadded(a, body, c);
  }

  lemma Associate(a: string, u: string, b: string, v: string, c: string)
    ensures a + u + b + v + c == a + (u + (b + (v + c)))
    ensures u + b + v + c == u + (b + (v + c))
  {
  }
}
