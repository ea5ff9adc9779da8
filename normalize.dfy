/** The two text normalisers: `normalizeTitle` (the title part of the dedup
    key) and `cleanAbstract` (Crossref abstracts, which arrive with JATS
    markup). */
module Normalize {
  import opened Wrappers
  import opened Text
  import opened Records

  /** `normalizeTitle`: the title (empty when falsy) lower-cased, each run of
      white space made one space, and the ends trimmed. */
  function NormalizeTitle(s: Option<string>): (r: string)
    ensures Collapsed(r) && NoUpper(r)
    ensures s.Some? && Collapsed(s.value) ==> r == LowerStr(s.value)
  {
    KeptCharsNoUpper(Squish(LowerStr(OrEmpty(s))), LowerStr(OrEmpty(s)));
    SquishLowerCollapsed(OrEmpty(s));
    Squish(LowerStr(OrEmpty(s)))
  }


  /** Normalising a normalised title changes nothing. */
  lemma {:induction false} NormalizeTitleIdempotent(s: Option<string>)
    ensures NormalizeTitle(Some(NormalizeTitle(s))) == NormalizeTitle(s)
  {
    var n := NormalizeTitle(s);
    assert OrEmpty(Some(n)) == n;
    LowerStrFixed(n);
    SquishFixed(n);
  }

  /** Letter case does not matter to the normalised title. */
  lemma NormalizeTitleIgnoresCase(s: string)
    ensures NormalizeTitle(Some(LowerStr(s))) == NormalizeTitle(Some(s))
  {
    LowerStrIdempotent(s);
  }

  /** White space around a title does not matter. */
  lemma NormalizeTitlePadded(pre: string, s: string, post: string)
    requires AllWs(pre) && AllWs(post)
    ensures NormalizeTitle(Some(pre + s + post)) == NormalizeTitle(Some(s))
  {
    LowerStrConcat(pre + s, post);
    LowerStrConcat(pre, s);
    LowerKeepsAllWs(pre);
    LowerKeepsAllWs(post);
    SquishPadded(LowerStr(pre), LowerStr(s), LowerStr(post));
  }

  /** Inside a title, any run of white space counts as one space. */
  lemma NormalizeTitleRun(a: string, w: string, b: string)
    requires w != [] && AllWs(w)
    ensures NormalizeTitle(Some(a + w + b)) == NormalizeTitle(Some(a + " " + b))
  {
    LowerStrConcat(a + w, b);
    LowerStrConcat(a, w);
    LowerStrConcat(a + " ", b);
    LowerStrConcat(a, " ");
    assert LowerStr(" ") == " ";
    LowerKeepsAllWs(w);
    SquishRun(LowerStr(a), LowerStr(w), LowerStr(b));
  }

  /** A padded title with a run of mixed white space inside normalises to
      its single-spaced, lower-case words. */
  lemma NormalizeTitleExample()
    ensures NormalizeTitle(Some(" Deep \n Learning\t")) == "deep learning"
  {
    var t := "Deep \n Learning";
    assert " Deep \n Learning\t" == " " + t + "\t";
    NormalizeTitlePadded(" ", t, "\t");
    ExampleRun();
    ExampleClean();
  }

  lemma ExampleRun()
    ensures NormalizeTitle(Some("Deep \n Learning")) == NormalizeTitle(Some("Deep Learning"))
  {
    assert "Deep \n Learning" == "Deep" + " \n " + "Learning";
    assert "Deep Learning" == "Deep" + " " + "Learning";
    NormalizeTitleRun("Deep", " \n ", "Learning");
  }

  lemma ExampleClean()
    ensures NormalizeTitle(Some("Deep Learning")) == "deep learning"
  {
    ExampleCollapsed();
    ExampleLower();
  }

  lemma ExampleCollapsed()
    ensures Collapsed("Deep Learning")
  {
    var c := "Deep Learning";
    assert forall i | 0 <= i < |c| :: IsWs(c[i]) <==> i == 4;
  }

  lemma ExampleLower()
    ensures LowerStr("Deep Learning") == "deep learning"
  {
    LowerStrConcat("D", "eep Learning");
    LowerStrConcat("eep ", "Learning");
    LowerStrConcat("L", "earning");
    LowerStrFixed("eep ");
    LowerStrFixed("earning");
  }

  // ---- tags ----

  /** Index of the first `c` in `t`, or `|t|` when there is none. */
  function IndexOf(t: string, c: char): (k: nat)
    ensures k <= |t| && c !in t[..k]
    ensures k < |t| ==> t[k] == c
  {
    if t == [] then 0
    else if t[0] == c then 0
    else
      var k := 1 + IndexOf(t[1..], c);
      assert t[..k] == [t[0]] + t[1..][..k - 1];
      k
  }

  /** The regex `<[^>]+>` matches starting at `i` and ending at `j`. */
  predicate TagAt(s: string, i: int, j: int) {
    0 <= i && i + 1 < j < |s| && s[i] == '<' && s[j] == '>' && '>' !in s[i + 1..j]
  }

  /** Some tag pattern (a `<`, at least one non-`>`, a `>`) occurs in `s`. */
  predicate HasTag(s: string) {
    exists i, j | 0 <= i < j < |s| :: TagAt(s, i, j)
  }

  /** A form of "no tag" that follows the string left to right: each `<`
      is directly followed by `>` or is followed by no `>` at all. */
  predicate NoTag(s: string) {
    forall i :: 0 <= i < |s| && s[i] == '<' ==> '>' !in s[i + 1..] || (i + 1 < |s| && s[i + 1] == '>')
  }

  lemma NoTagMeansNoMatch(s: string)
    requires NoTag(s)
    ensures !HasTag(s)
  {
    forall i, j | 0 <= i < j < |s| ensures !TagAt(s, i, j) {
      assert s[i + 1..][j - i - 1] == s[j];
      if j > i + 1 {
        assert s[i + 1..j][0] == s[i + 1];
      }
    }
  }

  lemma NoTagCons(c: char, t: string)
    requires NoTag(t)
    requires c == '<' ==> '>' !in t || (t != [] && t[0] == '>')
    ensures NoTag([c] + t)
  {
    var s := [c] + t;
    forall i | 0 <= i < |s| && s[i] == '<'
      ensures '>' !in s[i + 1..] || (i + 1 < |s| && s[i + 1] == '>')
    {
      if i > 0 {
        assert s[i + 1..] == t[i..];
        assert t[i - 1] == '<';
      } else {
        assert s[1..] == t;
      }
    }
  }

  lemma NoTagTail(s: string)
    requires NoTag(s) && s != []
    ensures NoTag(s[1..])
  {
    var t := s[1..];
    forall i | 0 <= i < |t| && t[i] == '<'
      ensures '>' !in t[i + 1..] || (i + 1 < |t| && t[i + 1] == '>')
    {
      assert s[i + 1] == '<';
      assert t[i + 1..] == s[i + 2..];
    }
  }

  lemma NoTagPrefix(s: string, k: int)
    requires NoTag(s) && 0 <= k <= |s|
    ensures NoTag(s[..k])
  {
    var t := s[..k];
    forall i | 0 <= i < |t| && t[i] == '<'
      ensures '>' !in t[i + 1..] || (i + 1 < |t| && t[i + 1] == '>')
    {
      assert s[i] == '<';
      assert t[i + 1..] == s[i + 1..][..k - i - 1];
    }
  }

  lemma {:induction false} NoTagSuffix(s: string, k: int)
    requires NoTag(s) && 0 <= k <= |s|
    ensures NoTag(s[k..])
    decreases k
  {
    if k > 0 {
      NoTagTail(s);
      NoTagSuffix(s[1..], k - 1);
      assert s[1..][k - 1..] == s[k..];
    }
  }

  /** Tag stripping: scanning left to right, each `<` that is
      followed, after at least one other character, by a `>` starts a match
      that runs to the first such `>` and becomes one space. */
  function StripTags(s: string): (r: string)
    ensures NoTag(r)
    ensures '>' in r ==> '>' in s
    ensures s != [] && s[0] != '<' ==> r != [] && r[0] == s[0]
    ensures '<' !in s ==> r == s
    decreases |s|
  {
    if s == [] then []
    else
      var k := IndexOf(s[1..], '>');
      if s[0] == '<' && 1 <= k < |s| - 1 then
        var rest := StripTags(s[k + 2..]);
        NoTagCons(' ', rest);
        [' '] + rest
      else
        var rest := StripTags(s[1..]);
        assert s[0] == '<' ==> '>' !in rest || (rest != [] && rest[0] == '>') by {
          if s[0] == '<' && k == 0 && |s| > 1 {
            assert s[1..][0] == '>';
          }
        }
        NoTagCons(s[0], rest);
        [s[0]] + rest
  }

  /** The first `>` after a tag's `<` is the one that closes it. */
  lemma IndexOfClose(t: string, b: string)
    requires '>' !in t
    ensures IndexOf(t + ">" + b, '>') == |t|
  {
    var u := t + ">" + b;
    assert u[|t|] == '>';
    assert u[..|t|] == t;
  }

  /** A text without `<` in front of anything is kept as it is. */
  lemma {:induction false} StripTagsPrefix(a: string, rest: string)
    requires '<' !in a
    ensures StripTags(a + rest) == a + StripTags(rest)
    decreases |a|
  {
    if a == [] {
      assert a + rest == rest;
    } else {
      var s := a + rest;
      assert s[0] == a[0] && s[1..] == a[1..] + rest;
      StripTagsPrefix(a[1..], rest);
      StripTagsStep(s);
      ConsSplit(a, StripTags(rest));
    }
  }

  /** A tag `<t>` (at least one character, no `>` inside) after a text
      without `<` becomes one space; the text before it is kept. */
  lemma StripTagsOverTag(a: string, t: string, b: string)
    requires '<' !in a && t != [] && '>' !in t
    ensures StripTags(a + "<" + t + ">" + b) == a + " " + StripTags(b)
  {
    var tag := "<" + t + ">" + b;
    assert a + "<" + t + ">" + b == a + tag;
    StripTagsPrefix(a, tag);
    StripTagsAtTag(t, b);
    assert a + (" " + StripTags(b)) == a + " " + StripTags(b);
  }

  /** Putting back the first character of a non-empty text. */
  lemma ConsSplit(a: string, y: string)
    requires a != []
    ensures [a[0]] + (a[1..] + y) == a + y
  {
    assert a == [a[0]] + a[1..];
  }

  /** A tag at the very start becomes one space. */
  lemma StripTagsAtTag(t: string, b: string)
    requires t != [] && '>' !in t
    ensures StripTags("<" + t + ">" + b) == " " + StripTags(b)
  {
    var s := "<" + t + ">" + b;
    assert s[0] == '<' && s[1..] == t + ">" + b;
    IndexOfClose(t, b);
    assert s[|t| + 2..] == b;
  }

  /** A first character other than `<` is kept. */
  lemma StripTagsStep(s: string)
    requires s != [] && s[0] != '<'
    ensures StripTags(s) == [s[0]] + StripTags(s[1..])
  {
  }

  /** Stripping the tags of a `<p>` element leaves its text between two
      spaces. */
  lemma StripParagraph(s: string)
    requires '<' !in s
    ensures StripTags("<p>" + s + "</p>") == [' '] + s + [' ']
  {
    var inner := s + "</p>";
    assert "<p>" + s + "</p>" == "<" + "p" + ">" + inner;
    StripTagsAtTag("p", inner);
    StripClosing(s);
  }

  /** A closing `</p>` after a text without `<` becomes one space. */
  lemma StripClosing(s: string)
    requires '<' !in s
    ensures StripTags(s + "</p>") == s + [' ']
  {
    var close := "<" + "/p" + ">" + [];
    assert close == "</p>";
    assert s + "<" + "/p" + ">" + [] == s + close;
    StripTagsOverTag(s, "/p", []);
  }

  /** Collapsing white space neither creates nor moves a `<` next to a `>`. */
  lemma {:induction false} CollapseKeepsNoTag(s: string)
    requires NoTag(s)
    ensures NoTag(CollapseWs(s))
    decreases |s|
  {
    if s != [] {
      if IsWs(s[0]) {
        NoTagSuffix(s, |s| - |TrimStart(s)|);
        CollapseKeepsNoTag(TrimStart(s));
        NoTagCons(' ', CollapseWs(TrimStart(s)));
      } else {
        NoTagTail(s);
        CollapseKeepsNoTag(s[1..]);
        var rest := CollapseWs(s[1..]);
        if s[0] == '<' {
          if '>' in rest {
            var x :| 0 <= x < |rest| && rest[x] == '>';
            assert !IsWs(rest[x]);
            assert '>' in s[1..];
            assert s[1] == '>';
            assert rest[0] == '>';
          }
        }
        NoTagCons(s[0], rest);
      }
    }
  }

  /** `cleanAbstract`: the abstract (empty when falsy) with every tag replaced
      by a space, each run of white space made one space, and the ends
      trimmed. */
  function CleanAbstract(a: Option<string>): (r: string)
    ensures Collapsed(r) && !HasTag(r)
    ensures '<' !in OrEmpty(a) && Collapsed(OrEmpty(a)) ==> r == OrEmpty(a)
  {
    var stripped := StripTags(OrEmpty(a));
    CollapseKeepsNoTag(stripped);
    var c := CollapseWs(stripped);
    var t := TrimStart(c);
    NoTagSuffix(c, |c| - |t|);
    NoTagPrefix(t, |TrimEnd(t)|);
    NoTagMeansNoMatch(Trim(c));
    SquishFixed(stripped);
    Squish(stripped)
  }

  /** White space holds no `<`. */
  lemma NoTagCharInWs(w: string)
    requires AllWs(w)
    ensures '<' !in w
  {
  }

  /** White space around an abstract without tags does not matter. */
  lemma CleanAbstractPadded(pre: string, s: string, post: string)
    requires AllWs(pre) && AllWs(post) && '<' !in s
    ensures CleanAbstract(Some(pre + s + post)) == CleanAbstract(Some(s))
  {
    NoTagCharInWs(pre);
    NoTagCharInWs(post);
    assert '<' !in pre + s;
    assert '<' !in pre + s + post;
    SquishPadded(pre, s, post);
  }

  /** Inside an abstract, a run of white space after text without tags
      counts as one space. */
  lemma CleanAbstractRun(a: string, w: string, b: string)
    requires w != [] && AllWs(w) && '<' !in a
    ensures CleanAbstract(Some(a + w + b)) == CleanAbstract(Some(a + " " + b))
  {
    NoTagCharInWs(w);
    assert '<' !in a + w;
    assert '<' !in a + " ";
    StripTagsPrefix(a + w, b);
    StripTagsPrefix(a + " ", b);
    SquishRun(a, w, StripTags(b));
  }

  /** An abstract wrapped in a `<p>` element, as JATS abstracts are, is
      cleaned to its squished text. */
  lemma CleanAbstractParagraph(s: string)
    requires '<' !in s
    ensures CleanAbstract(Some("<p>" + s + "</p>")) == Squish(s)
  {
    StripParagraph(s);
    SquishPadded([' '], s, [' ']);
  }
}
