/** The JavaScript string primitives the pipeline is built from: the `\s`
    character class and `trim()`, `toLowerCase()`, the `/\s+/g` collapse,
    substring search, the `\b` word boundary, and number/decimal conversion. */
module Text {

  /** The characters ECMAScript's `\s` class and `String.prototype.trim`
      treat as white space (its WhiteSpace and LineTerminator code points). */
  predicate IsWs(c: char) {
    || c == ' ' || c == '\t' || c == '\n' || c == '\r' || c == '\U{B}' || c == '\U{C}'
    || c == '\U{A0}' || c == '\U{1680}' || ('\U{2000}' <= c <= '\U{200A}')
    || c == '\U{2028}' || c == '\U{2029}' || c == '\U{202F}' || c == '\U{205F}'
    || c == '\U{3000}' || c == '\U{FEFF}'
  }

  /** Upper-case letters whose lower-case form is modelled: ASCII `A`-`Z`
      and Latin-1 `À`-`Þ` (without `×`), each 32 code points below its
      lower-case partner. */
  predicate IsUpper(c: char) {
    ('A' <= c <= 'Z') || ('\U{C0}' <= c <= '\U{DE}' && c != '\U{D7}')
  }

  predicate NoUpper(s: string) {
    forall i :: 0 <= i < |s| ==> !IsUpper(s[i])
  }

  /** `toLowerCase()` on one character. */
  function Lower(c: char): (r: char)
    ensures !IsUpper(r)
    ensures IsWs(r) == IsWs(c)
    ensures !IsUpper(c) ==> r == c
  {
    if IsUpper(c) then (c as int + 32) as char else c
  }

  /** `toLowerCase()` on a string. */
  function LowerStr(s: string): (r: string)
    ensures |r| == |s| && NoUpper(r)
  {
    seq(|s|, i requires 0 <= i < |s| => Lower(s[i]))
  }

  lemma {:induction false} LowerStrFixed(s: string)
    requires NoUpper(s)
    ensures LowerStr(s) == s
  {
    forall i | 0 <= i < |s| ensures LowerStr(s)[i] == s[i] {
      assert !IsUpper(s[i]);
    }
  }

  /** Lower-casing twice is lower-casing once. */
  lemma LowerStrIdempotent(s: string)
    ensures LowerStr(LowerStr(s)) == LowerStr(s)
  {
    LowerStrFixed(LowerStr(s));
  }

  // ---- white space ----

  predicate NoEdgeWs(s: string) {
    s == [] || (!IsWs(s[0]) && !IsWs(s[|s| - 1]))
  }

  predicate NoDoubleWs(s: string) {
    forall i :: 0 <= i < |s| - 1 ==> !(IsWs(s[i]) && IsWs(s[i + 1]))
  }

  predicate WsAreSpaces(s: string) {
    forall i :: 0 <= i < |s| && IsWs(s[i]) ==> s[i] == ' '
  }

  /** What collapsing white space and trimming produce: single spaces between
      words and no white space at either end. */
  predicate Collapsed(s: string) {
    NoEdgeWs(s) && NoDoubleWs(s) && WsAreSpaces(s)
  }

  /** Drops the leading white space. */
  function TrimStart(s: string): (r: string)
    ensures |r| <= |s| && r == s[|s| - |r|..]
    ensures r == [] || !IsWs(r[0])
    ensures forall i :: 0 <= i < |s| - |r| ==> IsWs(s[i])
  {
    if |s| > 0 && IsWs(s[0]) then TrimStart(s[1..]) else s
  }

  /** Drops the trailing white space. */
  function TrimEnd(s: string): (r: string)
    ensures |r| <= |s| && r == s[..|r|]
    ensures r == [] || !IsWs(r[|r| - 1])
    ensures forall i :: |r| <= i < |s| ==> IsWs(s[i])
  {
    if |s| > 0 && IsWs(s[|s| - 1]) then TrimEnd(s[..|s| - 1]) else s
  }

  /** `String.prototype.trim`. */
  function Trim(s: string): (r: string)
    ensures NoEdgeWs(r)
    ensures NoEdgeWs(s) ==> r == s
  {
    TrimEnd(TrimStart(s))
  }

  /** White-space collapsing: every maximal run of white space becomes a
      single space; every other character is kept in place. */
  function CollapseWs(s: string): (r: string)
    ensures NoDoubleWs(r) && WsAreSpaces(r)
    ensures |r| <= |s| && (r == [] <==> s == [])
    ensures r != [] ==> IsWs(r[0]) == IsWs(s[0])
    ensures forall i :: 0 <= i < |r| && !IsWs(r[i]) ==> r[i] in s
    decreases |s|
  {
    if s == [] then []
    else if IsWs(s[0]) then [' '] + CollapseWs(TrimStart(s))
    else [s[0]] + CollapseWs(s[1..])
  }

  /** A string that already has single spaces only is left unchanged. */
  lemma {:induction false} CollapseWsFixed(s: string)
    requires NoDoubleWs(s) && WsAreSpaces(s)
    ensures CollapseWs(s) == s
    decreases |s|
  {
    if s != [] {
      if IsWs(s[0]) {
        assert |s| > 1 ==> !IsWs(s[1]);
        assert TrimStart(s) == s[1..];
      }
      CollapseWsFixed(s[1..]);
    }
  }

  /** Lower-casing distributes over concatenation. */
  lemma LowerStrConcat(a: string, b: string)
    ensures LowerStr(a + b) == LowerStr(a) + LowerStr(b)
  {
    var l := LowerStr(a + b);
    forall i | 0 <= i < |a + b| ensures l[i] == (LowerStr(a) + LowerStr(b))[i] {
      if i < |a| {
        assert (a + b)[i] == a[i];
      } else {
        assert (a + b)[i] == b[i - |a|];
      }
    }
  }

  /** Lower-casing leaves white space where it is, so it drops the same
      leading white space. */
  lemma {:induction false} TrimStartLower(s: string)
    ensures TrimStart(LowerStr(s)) == LowerStr(TrimStart(s))
    decreases |s|
  {
    if |s| > 0 && IsWs(s[0]) {
      assert LowerStr(s)[1..] == LowerStr(s[1..]);
      TrimStartLower(s[1..]);
    }
  }

  /** Lower-casing and white-space collapsing can be done in either order. */
  lemma {:induction false} LowerCollapseCommute(s: string)
    ensures LowerStr(CollapseWs(s)) == CollapseWs(LowerStr(s))
    decreases |s|
  {
    if s != [] {
      var l := LowerStr(s);
      assert l[0] == Lower(s[0]);
      if IsWs(s[0]) {
        TrimStartLower(s);
        LowerCollapseCommute(TrimStart(s));
        LowerStrConcat([' '], CollapseWs(TrimStart(s)));
        assert LowerStr([' ']) == [' '];
      } else {
        assert l[1..] == LowerStr(s[1..]);
        LowerCollapseCommute(s[1..]);
        LowerStrConcat([s[0]], CollapseWs(s[1..]));
        assert LowerStr([s[0]]) == [l[0]];
      }
    }
  }

  /** Dropping the leading white space of a concatenation. */
  lemma {:induction false} TrimStartAppend(x: string, y: string)
    ensures TrimStart(x) != [] ==> TrimStart(x + y) == TrimStart(x) + y
    ensures TrimStart(x) == [] ==> TrimStart(x + y) == TrimStart(y)
    decreases |x|
  {
    if x == [] {
      assert x + y == y;
    } else if IsWs(x[0]) {
      assert (x + y)[1..] == x[1..] + y;
      TrimStartAppend(x[1..], y);
    }
  }

  predicate EndsWs(x: string) {
    x != [] && IsWs(x[|x| - 1])
  }

  /** A trailing space merges into a final run of white space, and
      otherwise becomes one more space at the end. */
  lemma {:induction false} CollapseSnocSpace(x: string)
    ensures CollapseWs(x + [' ']) == if EndsWs(x) then CollapseWs(x) else CollapseWs(x) + [' ']
    decreases |x|
  {
    if x == [] {
      CollapseSpace();
      assert x + [' '] == [' '];
    } else if IsWs(x[0]) {
      TrimStartAppend(x, [' ']);
      if TrimStart(x) == [] {
        CollapseSnocAllWs(x);
      } else {
        CollapseSnocSpace(TrimStart(x));
        CollapseSnocWsHead(x);
      }
    } else {
      CollapseSnocSpace(x[1..]);
      CollapseSnocWordHead(x);
    }
  }

  /** One step of `CollapseWs` at a word character. */
  lemma CollapseWordStep(x: string)
    requires x != [] && !IsWs(x[0])
    ensures CollapseWs(x) == [x[0]] + CollapseWs(x[1..])
  {
  }

  /** One step of `CollapseWs` at white space. */
  lemma CollapseWsStep(x: string)
    requires x != [] && IsWs(x[0])
    ensures CollapseWs(x) == [' '] + CollapseWs(TrimStart(x))
  {
  }

  /** Putting one character in front keeps "equal, or one more space at
      the end". */
  lemma ConsKeepsSnoc(h: char, a: string, b: string, e: bool)
    requires a == if e then b else b + [' ']
    ensures [h] + a == if e then [h] + b else [h] + b + [' ']
  {
  }

  lemma EndsWsTail(x: string)
    requires x != [] && !IsWs(x[0])
    ensures EndsWs(x) == EndsWs(x[1..])
  {
    if |x| > 1 {
      assert x[|x| - 1] == x[1..][|x| - 2];
    }
  }

  lemma CollapseSpace()
    ensures CollapseWs([' ']) == [' ']
  {
    var z := [' '];
    assert z[1..] == [];
    assert TrimStart(z) == [];
  }

  lemma CollapseSnocAllWs(x: string)
    requires x != [] && IsWs(x[0]) && TrimStart(x) == []
    ensures EndsWs(x) && CollapseWs(x + [' ']) == CollapseWs(x) == [' ']
  {
    TrimStartAppend(x, [' ']);
    CollapseSpace();
    assert TrimStart([' ']) == [];
    assert (x + [' '])[0] == x[0];
    assert IsWs(x[|x| - 1]);
  }

  lemma CollapseSnocWsHead(x: string)
    requires x != [] && IsWs(x[0]) && TrimStart(x) != []
    requires var t := TrimStart(x);
      CollapseWs(t + [' ']) == if EndsWs(t) then CollapseWs(t) else CollapseWs(t) + [' ']
    ensures CollapseWs(x + [' ']) == if EndsWs(x) then CollapseWs(x) else CollapseWs(x) + [' ']
  {
    var y := x + [' '];
    var t := TrimStart(x);
    TrimStartAppend(x, [' ']);
    HeadOfSnoc(x, ' ');
    EndsWsTrim(x);
    CollapseWsStep(y);
    CollapseWsStep(x);
    ConsKeepsSnoc(' ', CollapseWs(t + [' ']), CollapseWs(t), EndsWs(t));
  }

  /** Splitting off the first character of `x + [c]`. */
  lemma HeadOfSnoc(x: string, c: char)
    requires x != []
    ensures (x + [c])[0] == x[0] && (x + [c])[1..] == x[1..] + [c]
  {
  }

  /** Dropping leading white space keeps the last character. */
  lemma EndsWsTrim(x: string)
    requires TrimStart(x) != []
    ensures EndsWs(x) == EndsWs(TrimStart(x))
  {
    var t := TrimStart(x);
    assert x[|x| - 1] == t[|t| - 1];
  }

  lemma CollapseSnocWordHead(x: string)
    requires x != [] && !IsWs(x[0])
    requires var t := x[1..];
      CollapseWs(t + [' ']) == if EndsWs(t) then CollapseWs(t) else CollapseWs(t) + [' ']
    ensures CollapseWs(x + [' ']) == if EndsWs(x) then CollapseWs(x) else CollapseWs(x) + [' ']
  {
    var y := x + [' '];
    var t := x[1..];
    HeadOfSnoc(x, ' ');
    EndsWsTail(x);
    CollapseWordStep(y);
    CollapseWordStep(x);
    ConsKeepsSnoc(x[0], CollapseWs(t + [' ']), CollapseWs(t), EndsWs(t));
  }

  /** `trim()` ignores one more trailing space. */
  lemma TrimSnocSpace(c: string)
    ensures Trim(c + [' ']) == Trim(c)
  {
    TrimStartAppend(c, [' ']);
    var u := TrimStart(c);
    if u == [] {
      assert TrimStart([' ']) == TrimStart([]);
    } else {
      assert (u + [' '])[..|u|] == u;
    }
  }

  /** Collapsing and trimming ignore one more leading space. */
  lemma CollapseConsSpace(x: string)
    ensures Trim(CollapseWs([' '] + x)) == Trim(CollapseWs(x))
  {
    assert ([' '] + x)[1..] == x;
    if x != [] && !IsWs(x[0]) {
      var c := CollapseWs(x);
      assert ([' '] + c)[1..] == c;
    } else if x == [] {
      assert TrimStart([' ']) == TrimStart([]);
    }
  }

  /** A string of white space only has nothing left after its leading
      white space is dropped. */
  lemma {:induction false} TrimStartAllWs(w: string)
    requires AllWs(w)
    ensures TrimStart(w) == []
    decreases |w|
  {
    if w != [] {
      TrimStartAllWs(w[1..]);
    }
  }

  /** A run of white space collapses exactly as a single space would,
      wherever it stands. */
  lemma {:induction false} CollapseRun(a: string, w: string, b: string)
    requires w != [] && AllWs(w)
    ensures CollapseWs(a + w + b) == CollapseWs(a + [' '] + b)
    decreases |a|
  {
    if a == [] {
      NilConcat(w, b);
      NilConcat([' '], b);
      RunHead(w, b);
    } else if !IsWs(a[0]) {
      CollapseRun(a[1..], w, b);
      CollapseRunWordHead(a, w, b);
    } else if TrimStart(a) == [] {
      CollapseRunAllWs(a, w, b);
    } else {
      CollapseRun(TrimStart(a), w, b);
      CollapseRunWsHead(a, w, b);
    }
  }

  lemma NilConcat(w: string, b: string)
    ensures [] + w + b == w + b
  {
  }

  /** Splitting off the first character of `a + w + b`. */
  lemma HeadOfConcat(a: string, w: string, b: string)
    requires a != []
    ensures (a + w + b)[0] == a[0] && (a + w + b)[1..] == a[1..] + w + b
  {
  }

  lemma CollapseRunWordHead(a: string, w: string, b: string)
    requires a != [] && !IsWs(a[0])
    requires CollapseWs(a[1..] + w + b) == CollapseWs(a[1..] + [' '] + b)
    ensures CollapseWs(a + w + b) == CollapseWs(a + [' '] + b)
  {
    HeadOfConcat(a, w, b);
    HeadOfConcat(a, [' '], b);
    CollapseWordStep(a + w + b);
    CollapseWordStep(a + [' '] + b);
  }

  /** Dropping the leading white space of `a + w + b`. */
  lemma TrimStartConcat(a: string, w: string, b: string)
    requires TrimStart(a) != []
    ensures TrimStart(a + w + b) == TrimStart(a) + w + b
  {
    ConcatAssoc(a, w, b);
    ConcatAssoc(TrimStart(a), w, b);
    TrimStartAppend(a, w + b);
  }

  lemma CollapseRunWsHead(a: string, w: string, b: string)
    requires a != [] && IsWs(a[0]) && TrimStart(a) != []
    requires var t := TrimStart(a);
      CollapseWs(t + w + b) == CollapseWs(t + [' '] + b)
    ensures CollapseWs(a + w + b) == CollapseWs(a + [' '] + b)
  {
    TrimStartConcat(a, w, b);
    TrimStartConcat(a, [' '], b);
    HeadOfConcat(a, w, b);
    HeadOfConcat(a, [' '], b);
    CollapseWsStep(a + w + b);
    CollapseWsStep(a + [' '] + b);
  }

  lemma CollapseRunAllWs(a: string, w: string, b: string)
    requires a != [] && IsWs(a[0]) && TrimStart(a) == [] && w != [] && AllWs(w)
    ensures CollapseWs(a + w + b) == CollapseWs(a + [' '] + b)
  {
    var x := a + w + b;
    var y := a + [' '] + b;
    TrimStartAllWsConcat(a, w, b);
    TrimStartAllWsConcat(a, [' '], b);
    RunTrim(w, b);
    assert TrimStart(x) == TrimStart(y);
    HeadOfConcat(a, w, b);
    HeadOfConcat(a, [' '], b);
    CollapseWsStep(x);
    CollapseWsStep(y);
  }

  /** After leading white space only, `a + w + b` starts where `w + b` does. */
  lemma TrimStartAllWsConcat(a: string, w: string, b: string)
    requires TrimStart(a) == []
    ensures TrimStart(a + w + b) == TrimStart(w + b)
  {
    ConcatAssoc(a, w, b);
    TrimStartAppend(a, w + b);
  }

  lemma ConcatAssoc(a: string, b: string, c: string)
    ensures a + b + c == a + (b + c)
  {
  }

  /** A leading run of white space is skipped like a single space. */
  lemma RunTrim(w: string, b: string)
    requires w != [] && AllWs(w)
    ensures TrimStart(w + b) == TrimStart([' '] + b) == TrimStart(b)
  {
    TrimStartAllWs(w);
    TrimStartAllWs([' ']);
    TrimStartAppend(w, b);
    TrimStartAppend([' '], b);
  }

  /** A leading run of white space is dropped like a single space. */
  lemma RunHead(w: string, b: string)
    requires w != [] && AllWs(w)
    ensures CollapseWs(w + b) == CollapseWs([' '] + b)
  {
    RunTrim(w, b);
    assert (w + b)[0] == w[0];
    CollapseWsStep(w + b);
    CollapseWsStep([' '] + b);
  }

  /** Inside a string, a run of white space counts as one space. */
  lemma SquishRun(a: string, w: string, b: string)
    requires w != [] && AllWs(w)
    ensures Squish(a + w + b) == Squish(a + " " + b)
  {
    CollapseRun(a, w, b);
  }

  /** Trailing white space is trimmed away. */
  lemma SquishAppendWs(s: string, post: string)
    requires AllWs(post)
    ensures Squish(s + post) == Squish(s)
  {
    if post == [] {
      assert s + post == s;
    } else {
      var c := CollapseWs(s);
      CollapseRunEnd(s, post);
      CollapseSnocSpace(s);
      if EndsWs(s) {
        assert CollapseWs(s + post) == c;
      } else {
        assert CollapseWs(s + post) == c + [' '];
        TrimSnocSpace(c);
      }
    }
  }

  /** A final run of white space collapses as a single space would. */
  lemma CollapseRunEnd(s: string, post: string)
    requires post != [] && AllWs(post)
    ensures CollapseWs(s + post) == CollapseWs(s + [' '])
  {
    CollapseRun(s, post, []);
    assert s + post + [] == s + post;
    assert s + [' '] + [] == s + [' '];
  }

  /** Leading white space is trimmed away. */
  lemma SquishPrependWs(pre: string, s: string)
    requires AllWs(pre)
    ensures Squish(pre + s) == Squish(s)
  {
    if pre == [] {
      assert pre + s == s;
    } else {
      RunHead(pre, s);
      CollapseConsSpace(s);
    }
  }

  /** White-space padding on either side does not change the squished
      form. */
  lemma SquishPadded(pre: string, s: string, post: string)
    requires AllWs(pre) && AllWs(post)
    ensures Squish(pre + s + post) == Squish(s)
  {
    assert pre + s + post == pre + (s + post);
    SquishPrependWs(pre, s + post);
    SquishAppendWs(s, post);
  }

  /** A slice of a string keeps its single spacing. */
  lemma SliceKeepsSpacing(s: string, a: int, b: int)
    requires 0 <= a <= b <= |s| && NoDoubleWs(s) && WsAreSpaces(s)
    ensures NoDoubleWs(s[a..b]) && WsAreSpaces(s[a..b])
  {
    assert forall i :: 0 <= i < b - a ==> s[a..b][i] == s[a + i];
  }

  /** Trimming keeps single spacing and only removes white space. */
  lemma TrimKeepsSpacing(s: string)
    requires NoDoubleWs(s) && WsAreSpaces(s)
    ensures NoDoubleWs(Trim(s)) && WsAreSpaces(Trim(s))
  {
    var t := TrimStart(s);
    SliceKeepsSpacing(s, |s| - |t|, |s|);
    SliceKeepsSpacing(t, 0, |TrimEnd(t)|);
  }

  /** Trimming only removes characters. */
  lemma TrimKeepsChars(s: string)
    ensures forall i :: 0 <= i < |Trim(s)| ==> Trim(s)[i] in s
  {
    var t := TrimStart(s);
    forall i | 0 <= i < |Trim(s)| ensures Trim(s)[i] == s[|s| - |t| + i] {
      assert Trim(s)[i] == t[i];
    }
  }

  /** White space collapsed, then trimmed. */
  function Squish(s: string): (r: string)
    ensures Collapsed(r)
    ensures forall i :: 0 <= i < |r| && !IsWs(r[i]) ==> r[i] in s
  {
    TrimKeepsSpacing(CollapseWs(s));
    TrimKeepsChars(CollapseWs(s));
    Trim(CollapseWs(s))
  }

  /** A string whose characters other than white space all come from a
      string without upper case has no upper case either. */
  lemma KeptCharsNoUpper(r: string, s: string)
    requires NoUpper(s)
    requires forall i :: 0 <= i < |r| && !IsWs(r[i]) ==> r[i] in s
    ensures NoUpper(r)
  {
    forall i | 0 <= i < |r| ensures !IsUpper(r[i]) {
      if !IsWs(r[i]) {
        var j :| 0 <= j < |s| && s[j] == r[i];
      }
    }
  }

  /** Lower-casing moves no white space, so it keeps a string collapsed. */
  lemma LowerKeepsCollapsed(s: string)
    requires Collapsed(s)
    ensures Collapsed(LowerStr(s))
  {
    var l := LowerStr(s);
    forall i | 0 <= i < |s| ensures IsWs(l[i]) == IsWs(s[i]) && (IsWs(s[i]) ==> l[i] == ' ') {
      assert l[i] == Lower(s[i]);
    }
  }

  /** Lower-casing keeps white space white space. */
  lemma LowerKeepsAllWs(s: string)
    requires AllWs(s)
    ensures AllWs(LowerStr(s))
  {
    forall i | 0 <= i < |s| ensures IsWs(LowerStr(s)[i]) {
      assert LowerStr(s)[i] == Lower(s[i]);
    }
  }

  /** A single-spaced, trimmed string is its own squished form. */
  lemma SquishFixed(s: string)
    ensures Collapsed(s) ==> Squish(s) == s
  {
    if Collapsed(s) {
      CollapseWsFixed(s);
    }
  }

  /** Lower-casing a single-spaced, trimmed string leaves nothing to squish. */
  lemma SquishLowerCollapsed(s: string)
    ensures Collapsed(s) ==> Squish(LowerStr(s)) == LowerStr(s)
  {
    if Collapsed(s) {
      LowerKeepsCollapsed(s);
      SquishFixed(LowerStr(s));
    }
  }

  predicate AllWs(s: string) {
    forall i :: 0 <= i < |s| ==> IsWs(s[i])
  }

  /** `trim()` removes exactly the white-space padding around a core that
      neither starts nor ends with white space. */
  lemma {:induction false} TrimPadded(pre: string, core: string, post: string)
    requires AllWs(pre) && AllWs(post) && NoEdgeWs(core) && core != []
    ensures Trim(pre + core + post) == core
  {
    assert pre + core + post == pre + (core + post);
    TrimStartPadded(pre, core + post);
    TrimEndPadded(core, post);
  }

  lemma {:induction false} TrimStartPadded(pre: string, rest: string)
    requires AllWs(pre) && rest != [] && !IsWs(rest[0])
    ensures TrimStart(pre + rest) == rest
  {
    if pre != [] {
      assert (pre + rest)[1..] == pre[1..] + rest;
      TrimStartPadded(pre[1..], rest);
    } else {
      assert pre + rest == rest;
    }
  }

  lemma {:induction false} TrimEndPadded(rest: string, post: string)
    requires AllWs(post) && rest != [] && !IsWs(rest[|rest| - 1])
    ensures TrimEnd(rest + post) == rest
  {
    if post != [] {
      assert (rest + post)[..|rest + post| - 1] == rest + post[..|post| - 1];
      TrimEndPadded(rest, post[..|post| - 1]);
    } else {
      assert rest + post == rest;
    }
  }

  // ---- substring search and word boundaries ----

  predicate ContainsAt(t: string, p: string, i: int) {
    0 <= i && i + |p| <= |t| && t[i..i + |p|] == p
  }

  /** `t.includes(p)`, and the regex `/p/` for a literal `p`. */
  predicate Contains(t: string, p: string) {
    exists i | 0 <= i <= |t| - |p| :: ContainsAt(t, p, i)
  }

  predicate ContainsAny(t: string, ps: seq<string>) {
    exists k | 0 <= k < |ps| :: Contains(t, ps[k])
  }

  /** A pattern found in a piece of a text is found in the whole text. */
  lemma ContainsWithin(pre: string, mid: string, post: string, p: string)
    requires Contains(mid, p)
    ensures Contains(pre + mid + post, p)
  {
    var i :| 0 <= i <= |mid| - |p| && ContainsAt(mid, p, i);
    var t := pre + mid + post;
    assert t[|pre| + i..|pre| + i + |p|] == mid[i..i + |p|];
    assert ContainsAt(t, p, |pre| + i);
  }

  /** Every character of an occurring pattern occurs in the text. */
  lemma PatternCharsOccur(t: string, p: string, k: int)
    requires Contains(t, p) && 0 <= k < |p|
    ensures p[k] in t
  {
    var i :| 0 <= i <= |t| - |p| && ContainsAt(t, p, i);
    assert t[i + k] == t[i..i + |p|][k];
  }

  /** A word character for `\b` in a JavaScript regex without the `u`
      flag: `[A-Za-z0-9_]`. */
  predicate IsWordChar(c: char) {
    ('a' <= c <= 'z') || ('A' <= c <= 'Z') || ('0' <= c <= '9') || c == '_'
  }

  predicate WordAt(t: string, i: int) {
    0 <= i < |t| && IsWordChar(t[i])
  }

  /** `\b` at position `i`: word and non-word on either side. */
  predicate BoundaryAt(t: string, i: int) {
    WordAt(t, i - 1) != WordAt(t, i)
  }

  /** `/\bp/`. */
  predicate ContainsAfterBoundary(t: string, p: string) {
    exists i | 0 <= i <= |t| - |p| :: BoundaryAt(t, i) && ContainsAt(t, p, i)
  }

  /** `/p\b/`. */
  predicate ContainsBeforeBoundary(t: string, p: string) {
    exists i | 0 <= i <= |t| - |p| :: ContainsAt(t, p, i) && BoundaryAt(t, i + |p|)
  }

  // ---- numbers as decimal strings ----

  predicate IsDigit(c: char) {
    '0' <= c <= '9'
  }

  function DigitChar(d: int): (c: char)
    requires 0 <= d < 10
    ensures IsDigit(c)
  {
    ('0' as int + d) as char
  }

  /** `String(n)` for a non-negative integer. */
  function NatToDecimal(n: nat): (r: string)
    ensures |r| > 0 && forall i :: 0 <= i < |r| ==> IsDigit(r[i])
  {
    if n < 10 then [DigitChar(n)] else NatToDecimal(n / 10) + [DigitChar(n % 10)]
  }

  /** `String(n)` for an integer. */
  function IntToDecimal(n: int): (r: string)
    ensures r != [] && (r[0] == '-' <==> n < 0)
  {
    if n < 0 then "-" + NatToDecimal(-n) else NatToDecimal(n)
  }

  /** `Number(s)` for a string of decimal digits. */
  function DecimalValue(s: string): (n: nat)
    requires forall i :: 0 <= i < |s| ==> IsDigit(s[i])
  {
    if s == [] then 0
    else
      assert IsDigit(s[|s| - 1]);
      10 * DecimalValue(s[..|s| - 1]) + (s[|s| - 1] as int - '0' as int)
  }

  /** Printing a number and reading it back gives the number. */
  lemma {:induction false} DecimalRoundTrip(n: nat)
    ensures DecimalValue(NatToDecimal(n)) == n
  {
    if n >= 10 {
      var r := NatToDecimal(n);
      assert r[..|r| - 1] == NatToDecimal(n / 10);
      DecimalRoundTrip(n / 10);
    }
  }

  /** Two numbers print the same only if they are equal. */
  lemma IntToDecimalInjective(a: int, b: int)
    requires IntToDecimal(a) == IntToDecimal(b)
    ensures a == b
  {
    if a < 0 && b < 0 {
      assert NatToDecimal(-a) == IntToDecimal(a)[1..];
      DecimalRoundTrip(-a);
      DecimalRoundTrip(-b);
    } else if a >= 0 && b >= 0 {
      assert NatToDecimal(a) == NatToDecimal(b);
      DecimalRoundTrip(a);
      DecimalRoundTrip(b);
    }
  }
}
