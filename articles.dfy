/** Articles returned by the search endpoint and the cleaning applied to their
    excerpts before they are stored: every HTML tag (a match of the global
    pattern `<[^>]*>`) is removed, then HTML entities are decoded. */
module Articles {

  type String = seq<char>

  /** One news item. */
  datatype Article = Article(title: String, excerpt: String, url: String)

  /** The backend's answer: articles already sorted into three sentiment categories. */
  datatype ArticleResponse = ArticleResponse(
    supportive: seq<Article>,
    opposing: seq<Article>,
    neutral: seq<Article>)

  /** Entity decoding is done by the browser's DOM (a textarea's innerHTML);
      the model takes it as an arbitrary total function on strings. */
  type Decoder = String -> String

  /** Index of the first occurrence of `c` in `s`, or `|s|` when there is none. */
  function IndexOf(s: String, c: char): (k: nat)
    ensures k <= |s|
    ensures k < |s| ==> s[k] == c
    ensures forall i :: 0 <= i < k ==> s[i] != c
  {
    if s == [] then 0
    else if s[0] == c then 0
    else 1 + IndexOf(s[1..], c)
  }

  /** No `<` in `s` is followed, anywhere later, by a `>`: nothing in `s`
      matches the tag pattern `<[^>]*>`. */
  ghost predicate NoTag(s: String)
  {
    forall i, j :: 0 <= i < j < |s| && s[i] == '<' ==> s[j] != '>'
  }

  /** `s.replace(/<[^>]*>/g, "")`: scanning left to right, a `<` that has a
      `>` somewhere after it starts a match that ends at the first such `>`,
      and the whole match is dropped; every other character is kept. */
  function StripTags(s: String): String
    decreases |s|
  {
    if s == [] then []
    else if s[0] == '<' && IndexOf(s, '>') < |s| then StripTags(s[IndexOf(s, '>') + 1..])
    else [s[0]] + StripTags(s[1..])
  }

  /** The article with its excerpt stripped of tags and then decoded. */
  function CleanArticle(decode: Decoder, a: Article): Article
  {
    Article(a.title, decode(StripTags(a.excerpt)), a.url)
  }

  /** `cleanArticles`: the same articles, in the same order, each cleaned. */
  function CleanArticles(decode: Decoder, articles: seq<Article>): (r: seq<Article>)
    ensures |r| == |articles|
    ensures forall i :: 0 <= i < |r| ==>
      r[i].title == articles[i].title && r[i].url == articles[i].url &&
      r[i].excerpt == decode(StripTags(articles[i].excerpt))
  {
    seq(|articles|, i requires 0 <= i < |articles| => CleanArticle(decode, articles[i]))
  }

  // ---------------------------------------------------------------------------
  // Properties of the tag stripping

  /** A `>` at index `k > 0` after a `<` at index 0 is a tag. */
  lemma NoTagHead(s: String)
    requires |s| > 0
    ensures NoTag(s) <==> NoTag(s[1..]) && (s[0] == '<' ==> '>' !in s[1..])
  {
    var t := s[1..];
    if NoTag(t) && (s[0] == '<' ==> '>' !in t) {
      forall i, j | 0 <= i < j < |s| && s[i] == '<' ensures s[j] != '>' {
        if i == 0 {
          assert s[j] == t[j - 1];
        } else {
          assert s[i] == t[i - 1] && s[j] == t[j - 1];
        }
      }
    }
    if NoTag(s) {
      forall i, j | 0 <= i < j < |t| && t[i] == '<' ensures t[j] != '>' {
        assert t[i] == s[i + 1] && t[j] == s[j + 1];
      }
      forall j | 0 <= j < |t| && s[0] == '<' ensures t[j] != '>' {
        assert t[j] == s[j + 1];
      }
    }
  }

  /** Stripping only removes characters: it never introduces one. */
  lemma {:induction false} StripTagsChars(s: String)
    ensures forall c :: c in StripTags(s) ==> c in s
    decreases |s|
  {
    if s != [] {
      var k := IndexOf(s, '>');
      if s[0] == '<' && k < |s| {
        StripTagsChars(s[k + 1..]);
        assert forall c :: c in s[k + 1..] ==> c in s;
      } else {
        StripTagsChars(s[1..]);
        assert forall c :: c in s[1..] ==> c in s;
      }
    }
  }

  /** After stripping, no `<` is followed later by a `>`. */
  lemma {:induction false} StripTagsNoTag(s: String)
    ensures NoTag(StripTags(s))
    decreases |s|
  {
    if s != [] {
      var k := IndexOf(s, '>');
      if s[0] == '<' && k < |s| {
        StripTagsNoTag(s[k + 1..]);
      } else {
        var t := StripTags(s[1..]);
        StripTagsNoTag(s[1..]);
        var r := [s[0]] + t;
        assert r[1..] == t;
        if s[0] == '<' {
          StripTagsChars(s[1..]);
          assert '>' !in s[1..];
        }
        NoTagHead(r);
      }
    }
  }

  /** The strings stripping leaves unchanged are exactly those without a tag. */
  lemma {:induction false} StripTagsFixedPoint(s: String)
    ensures StripTags(s) == s <==> NoTag(s)
    decreases |s|
  {
    if NoTag(s) && s != [] {
      NoTagHead(s);
      var k := IndexOf(s, '>');
      if s[0] == '<' && k < |s| {
        assert false;
      }
      StripTagsFixedPoint(s[1..]);
      assert [s[0]] + s[1..] == s;
    }
    StripTagsNoTag(s);
  }

  /** Stripping is idempotent. */
  lemma StripTagsIdempotent(s: String)
    ensures StripTags(StripTags(s)) == StripTags(s)
  {
    StripTagsNoTag(s);
    StripTagsFixedPoint(StripTags(s));
  }

  /** A string without any `<` is returned unchanged. */
  lemma StripTagsNoOpen(s: String)
    requires '<' !in s
    ensures StripTags(s) == s
  {
    StripTagsFixedPoint(s);
  }

  /** Stripping never lengthens a string, and shortens it exactly when it holds a tag. */
  lemma {:induction false} StripTagsLength(s: String)
    ensures |StripTags(s)| <= |s|
    ensures |StripTags(s)| < |s| <==> !NoTag(s)
    decreases |s|
  {
    if s != [] {
      var k := IndexOf(s, '>');
      NoTagHead(s);
      if s[0] == '<' && k < |s| {
        StripTagsLength(s[k + 1..]);
        assert s[k] == s[1..][k - 1];
      } else {
        StripTagsLength(s[1..]);
      }
    }
  }

  /** The first occurrence in `u + v` is the one in `u`, if `u` has one. */
  lemma {:induction false} IndexOfAppend(u: String, v: String, c: char)
    ensures IndexOf(u + v, c) == if IndexOf(u, c) < |u| then IndexOf(u, c) else |u| + IndexOf(v, c)
    decreases |u|
  {
    if u != [] {
      assert (u + v)[0] == u[0];
      assert (u + v)[1..] == u[1..] + v;
      IndexOfAppend(u[1..], v, c);
    } else {
      assert u + v == v;
    }
  }

  /** Unfolding of `StripTags` on a head that has a tag. */
  lemma StripTagsUnfoldTag(w: String, k: nat)
    requires 0 < |w| && w[0] == '<' && k == IndexOf(w, '>') < |w|
    ensures StripTags(w) == StripTags(w[k + 1..])
  {
  }

  /** Unfolding of `StripTags` on a head that is kept. */
  lemma StripTagsUnfoldKeep(w: String)
    requires 0 < |w| && (w[0] == '<' ==> IndexOf(w, '>') == |w|)
    ensures StripTags(w) == [w[0]] + StripTags(w[1..])
  {
  }

  /** Text with no `>` in it cannot close a tag: it survives stripping
      untouched, and so does an unclosed `<` at its head. */
  lemma {:induction false} StripTagsUnclosedSuffix(u: String, v: String)
    requires '>' !in v
    ensures StripTags(u + v) == StripTags(u) + v
    decreases |u|
  {
    if u == [] {
      assert u + v == v;
      StripTagsFixedPoint(v);
    } else {
      var k := IndexOf(u, '>');
      if u[0] == '<' && k < |u| {
        var tail := u[k + 1..];
        assert StripTags(u + v) == StripTags(tail + v) by {
          IndexOfAppend(u, v, '>');
          StripTagsUnfoldTag(u + v, k);
          assert (u + v)[k + 1..] == tail + v;
        }
        StripTagsUnfoldTag(u, k);
        StripTagsUnclosedSuffix(tail, v);
      } else {
        var tail := u[1..];
        assert StripTags(u + v) == [u[0]] + StripTags(tail + v) by {
          IndexOfAppend(u, v, '>');
          assert (u + v)[0] == u[0];
          StripTagsUnfoldKeep(u + v);
          assert (u + v)[1..] == tail + v;
        }
        StripTagsUnfoldKeep(u);
        StripTagsUnclosedSuffix(tail, v);
      }
    }
  }

  /** Every cleaned excerpt is the decoding of a tag-free string no longer
      than the original excerpt: the tags are removed before decoding. */
  lemma CleanedExcerptsDecodeTagFree(decode: Decoder, articles: seq<Article>, i: nat)
    requires i < |articles|
    ensures var r := CleanArticles(decode, articles);
      exists t :: NoTag(t) && |t| <= |articles[i].excerpt| && r[i].excerpt == decode(t)
  {
    var t := StripTags(articles[i].excerpt);
    StripTagsNoTag(articles[i].excerpt);
    StripTagsLength(articles[i].excerpt);
    assert NoTag(t) && |t| <= |articles[i].excerpt|;
  }

  /** Cleaning distributes over concatenation: each article is cleaned on its own. */
  lemma CleanArticlesAppend(decode: Decoder, xs: seq<Article>, ys: seq<Article>)
    ensures CleanArticles(decode, xs + ys) == CleanArticles(decode, xs) + CleanArticles(decode, ys)
  {
  }

  /** A complete tag at the head of a string is dropped as a whole. */
  lemma StripTagsLeadingTag(tag: String, w: String)
    requires |tag| >= 2 && tag[0] == '<' && tag[|tag| - 1] == '>'
    requires '>' !in tag[..|tag| - 1]
    ensures StripTags(tag + w) == StripTags(w)
  {
    assert IndexOf(tag, '>') == |tag| - 1;
    IndexOfAppend(tag, w, '>');
    assert (tag + w)[0] == '<';
    assert (tag + w)[|tag|..] == w;
  }

  /** Text without `<` at the head of a string is kept as it is. */
  lemma {:induction false} StripTagsPlainPrefix(p: String, w: String)
    requires '<' !in p
    ensures StripTags(p + w) == p + StripTags(w)
    decreases |p|
  {
    if p == [] {
      assert p + w == w;
    } else {
      assert (p + w)[0] == p[0];
      assert (p + w)[1..] == p[1..] + w;
      StripTagsPlainPrefix(p[1..], w);
    }
  }

  /** The excerpt `"<b>Hello</b> &amp; welcome"` loses its tags and keeps its entity for the decoder. */
  lemma StripTagsExample(open: String, word: String, close: String, rest: String)
    requires open == "<b>" && word == "Hello" && close == "</b>" && rest == " &amp; welcome"
    ensures StripTags(open + word + close + rest) == word + rest
  {
    assert open + word + close + rest == open + (word + (close + rest));
    StripTagsLeadingTag(open, word + (close + rest));
    StripTagsPlainPrefix(word, close + rest);
    StripTagsLeadingTag(close, rest);
    StripTagsNoOpen(rest);
  }
}
