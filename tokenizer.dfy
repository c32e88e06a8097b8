/**
 * The argument tokenizer of the josh shell (`parse_argv`).
 *
 * The tokenizer walks the characters of a line once. Outside quotes a space
 * starts a new field, a newline is dropped and any other character is added
 * to the current (last) field. A `"` opens a quoted span that is copied
 * verbatim into the current field up to the next `"` or to the end of the
 * line. The `$` arm of the loop is empty and never advances, so a line with
 * a `$` outside quotes makes the loop spin forever.
 *
 * `Fields` is the specification: the field vector as a function of the line,
 * defined one character at a time, where a character is inside a quoted span
 * exactly when an odd number of `"` precede it. `ParseArgv` is the loop
 * itself, proved to compute `Fields`. `Step` and `Iterate` describe one and
 * several rounds of the outer loop, so that the hang on `$` can be stated.
 */
module Tokenizer {

  /** Number of `"` characters in `s`. */
  function QuoteCount(s: string): nat
  {
    if s == [] then 0
    else QuoteCount(s[..|s| - 1]) + (if s[|s| - 1] == '"' then 1 else 0)
  }

  /** A character that follows the prefix `s` lies inside a quoted span. */
  predicate Quoted(s: string)
  {
    QuoteCount(s) % 2 == 1
  }

  /**
   * Every `$` of `s` lies inside a quoted span (each character checked
   * against the prefix before it): the only lines the loop finishes.
   */
  predicate NoUnquotedDollar(s: string)
  {
    s == [] ||
    (NoUnquotedDollar(s[..|s| - 1]) && (Quoted(s[..|s| - 1]) || s[|s| - 1] != '$'))
  }

  /** Adds `w` to the end of the last field (`res.last_mut().unwrap().push(..)`). */
  function AppendLast(fields: seq<string>, w: string): seq<string>
    requires |fields| > 0
  {
    fields[..|fields| - 1] + [fields[|fields| - 1] + w]
  }

  /**
   * The effect of one character `c` on the field vector, `quoted` telling
   * whether `c` lies inside a quoted span.
   */
  function Feed(fields: seq<string>, quoted: bool, c: char): (r: seq<string>)
    requires |fields| > 0
    requires quoted || c != '$'
    ensures |r| > 0
  {
    if c == '"' then fields
    else if !quoted && c == ' ' then fields + [""]
    else if !quoted && c == '\n' then fields
    else AppendLast(fields, [c])
  }

  /** The field vector `parse_argv` returns for the line `s`. */
  function Fields(s: string): (r: seq<string>)
    requires NoUnquotedDollar(s)
    ensures |r| >= 1
    decreases |s|
  {
    if s == [] then [""]
    else
      var init := s[..|s| - 1];
      Feed(Fields(init), Quoted(init), s[|s| - 1])
  }

  // ---------------------------------------------------------------------
  // Reference descriptions the field vector is compared with.

  /** A character `c` following the prefix `init` is removed from the output. */
  predicate Dropped(init: string, c: char)
  {
    c == '"' || (!Quoted(init) && (c == ' ' || c == '\n'))
  }

  /** The line with every `"`, every unquoted space and every unquoted newline removed. */
  function Kept(s: string): string
  {
    if s == [] then []
    else
      var init := s[..|s| - 1];
      Kept(init) + (if Dropped(init, s[|s| - 1]) then [] else [s[|s| - 1]])
  }

  /** Number of spaces of `s` that lie outside quoted spans. */
  function UnquotedSpaces(s: string): nat
  {
    if s == [] then 0
    else
      var init := s[..|s| - 1];
      UnquotedSpaces(init) + (if !Quoted(init) && s[|s| - 1] == ' ' then 1 else 0)
  }

  /** The fields joined in order with nothing between them. */
  function Concat(fields: seq<string>): string
  {
    if fields == [] then []
    else Concat(fields[..|fields| - 1]) + fields[|fields| - 1]
  }

  // ---------------------------------------------------------------------
  // Unfolding the definitions at a prefix of a line.

  lemma {:induction false} QuoteCountAppend(s: string, c: char)
    ensures QuoteCount(s + [c]) == QuoteCount(s) + (if c == '"' then 1 else 0)
  {
    assert (s + [c])[..|s|] == s;
  }

  lemma {:induction false} QuoteCountSnoc(s: string, i: nat)
    requires i < |s|
    ensures QuoteCount(s[..i + 1]) == QuoteCount(s[..i]) + (if s[i] == '"' then 1 else 0)
  {
    assert s[..i + 1] == s[..i] + [s[i]];
    QuoteCountAppend(s[..i], s[i]);
  }

  lemma {:induction false} NoUnquotedDollarAppend(s: string, c: char)
    requires NoUnquotedDollar(s) && (Quoted(s) || c != '$')
    ensures NoUnquotedDollar(s + [c])
  {
    assert (s + [c])[..|s|] == s;
  }

  /** Every prefix of a line with no unquoted `$` has none either. */
  lemma {:induction false} NoUnquotedDollarPrefix(s: string, k: nat)
    requires NoUnquotedDollar(s) && k <= |s|
    ensures NoUnquotedDollar(s[..k])
    decreases |s| - k
  {
    if k < |s| {
      NoUnquotedDollarPrefix(s[..|s| - 1], k);
      assert s[..|s| - 1][..k] == s[..k];
    } else {
      assert s[..k] == s;
    }
  }

  /** In a line with no unquoted `$`, each `$` is preceded by an odd number of quotes. */
  lemma {:induction false} DollarIsQuoted(s: string, i: nat)
    requires NoUnquotedDollar(s) && i < |s| && s[i] == '$'
    ensures Quoted(s[..i])
  {
    NoUnquotedDollarPrefix(s, i + 1);
    assert s[..i + 1][..i] == s[..i];
  }

  /** Unfolds `Fields` at one more character. */
  lemma {:induction false} FieldsAppend(s: string, c: char)
    requires NoUnquotedDollar(s) && (Quoted(s) || c != '$')
    ensures NoUnquotedDollar(s + [c])
    ensures QuoteCount(s + [c]) == QuoteCount(s) + (if c == '"' then 1 else 0)
    ensures Fields(s + [c]) == Feed(Fields(s), Quoted(s), c)
  {
    NoUnquotedDollarAppend(s, c);
    QuoteCountAppend(s, c);
    assert (s + [c])[..|s|] == s;
  }

  /** `FieldsAppend` at a prefix of a line. */
  lemma {:induction false} FieldsSnoc(s: string, i: nat)
    requires i < |s| && NoUnquotedDollar(s[..i]) && (Quoted(s[..i]) || s[i] != '$')
    ensures NoUnquotedDollar(s[..i + 1])
    ensures QuoteCount(s[..i + 1]) == QuoteCount(s[..i]) + (if s[i] == '"' then 1 else 0)
    ensures Fields(s[..i + 1]) == Feed(Fields(s[..i]), Quoted(s[..i]), s[i])
  {
    assert s[..i + 1] == s[..i] + [s[i]];
    FieldsAppend(s[..i], s[i]);
  }

  // ---------------------------------------------------------------------
  // Properties of the field vector.

  /** The line without its last character still has no `$` outside quotes. */
  lemma {:induction false} NoUnquotedDollarInit(s: string)
    requires s != [] && NoUnquotedDollar(s)
    ensures s == s[..|s| - 1] + [s[|s| - 1]]
    ensures NoUnquotedDollar(s[..|s| - 1])
    ensures Quoted(s[..|s| - 1]) || s[|s| - 1] != '$'
  {
    var init, c := s[..|s| - 1], s[|s| - 1];
    assert |init + [c]| == |s|;
    assert forall i :: 0 <= i < |s| ==> (init + [c])[i] == s[i];
  }

  /** One field more than there are spaces outside quotes: runs of spaces are not collapsed. */
  lemma {:induction false} FieldCount(s: string)
    requires NoUnquotedDollar(s)
    ensures |Fields(s)| == 1 + UnquotedSpaces(s)
    decreases |s|
  {
    if s != [] {
      var init, c := s[..|s| - 1], s[|s| - 1];
      assert NoUnquotedDollar(init) && (Quoted(init) || c != '$');
      FieldCount(init);
      FeedLength(Fields(init), Quoted(init), c);
    }
  }

  lemma {:induction false} FeedLength(fields: seq<string>, quoted: bool, c: char)
    requires |fields| > 0 && (quoted || c != '$')
    ensures |Feed(fields, quoted, c)| == |fields| + (if !quoted && c == ' ' then 1 else 0)
  {
  }

  /** No field ever contains a `"`. */
  lemma {:induction false} FieldsHaveNoQuote(s: string)
    requires NoUnquotedDollar(s)
    ensures forall k :: 0 <= k < |Fields(s)| ==> '"' !in Fields(s)[k]
    decreases |s|
  {
    if s != [] {
      var init := s[..|s| - 1];
      NoUnquotedDollarInit(s);
      FieldsAppend(init, s[|s| - 1]);
      FieldsHaveNoQuote(init);
    }
  }

  lemma {:induction false} ConcatSnoc(fields: seq<string>, w: string)
    ensures Concat(fields + [w]) == Concat(fields) + w
  {
    assert (fields + [w])[..|fields|] == fields;
  }

  lemma {:induction false} ConcatLast(fields: seq<string>)
    requires |fields| > 0
    ensures Concat(fields) == Concat(fields[..|fields| - 1]) + fields[|fields| - 1]
  {
  }

  lemma {:induction false} ConcatAppendLast(fields: seq<string>, w: string)
    requires |fields| > 0
    ensures Concat(AppendLast(fields, w)) == Concat(fields) + w
  {
    ConcatSnoc(fields[..|fields| - 1], fields[|fields| - 1] + w);
    ConcatLast(fields);
  }

  lemma {:induction false} ConcatNewField(fields: seq<string>)
    ensures Concat(fields + [""]) == Concat(fields)
  {
    ConcatSnoc(fields, "");
  }

  /**
   * Joining the fields gives back the line without its quotes, its unquoted
   * spaces and its unquoted newlines; every other character keeps its place.
   */
  lemma {:induction false} ConcatFields(s: string)
    requires NoUnquotedDollar(s)
    ensures Concat(Fields(s)) == Kept(s)
    decreases |s|
  {
    if s != [] {
      var init, c := s[..|s| - 1], s[|s| - 1];
      NoUnquotedDollarInit(s);
      FieldsAppend(init, c);
      ConcatFields(init);
      var prev := Fields(init);
      if c == '"' || (!Quoted(init) && c == '\n') {
      } else if !Quoted(init) && c == ' ' {
        ConcatNewField(prev);
      } else {
        ConcatAppendLast(prev, [c]);
      }
    }
  }

  lemma {:induction false} AppendLastTwice(fields: seq<string>, u: string, v: string)
    requires |fields| > 0
    ensures AppendLast(AppendLast(fields, u), v) == AppendLast(fields, u + v)
  {
    var n := |fields|;
    assert AppendLast(fields, u)[..n - 1] == fields[..n - 1];
    assert AppendLast(fields, u)[n - 1] == fields[n - 1] + u;
    assert (fields[n - 1] + u) + v == fields[n - 1] + (u + v);
  }

  /**
   * After an opening `"` outside quotes, characters up to the next `"` are
   * added verbatim to the current field, spaces, newlines and `$` included,
   * and the rest of the line is still inside the span. With no closing `"`
   * this is how the whole rest of the line ends up in the last field.
   */
  lemma {:induction false} QuotedSpan(a: string, b: string)
    requires NoUnquotedDollar(a) && !Quoted(a) && '"' !in b
    ensures NoUnquotedDollar(a + ['"'] + b) && Quoted(a + ['"'] + b)
    ensures Fields(a + ['"'] + b) == AppendLast(Fields(a), b)
    decreases |b|
  {
    if b == [] {
      assert a + ['"'] + b == a + ['"'];
      OpenQuote(a);
      AppendLastEmpty(Fields(a));
    } else {
      var b', c := b[..|b| - 1], b[|b| - 1];
      assert b == b' + [c];
      assert a + ['"'] + b == (a + ['"'] + b') + [c];
      QuotedSpan(a, b');
      QuotedSpanStep(a, b', c);
    }
  }

  /** A `"` outside quotes opens a span and leaves the fields alone. */
  lemma {:induction false} OpenQuote(a: string)
    requires NoUnquotedDollar(a) && !Quoted(a)
    ensures NoUnquotedDollar(a + ['"']) && Quoted(a + ['"']) && Fields(a + ['"']) == Fields(a)
  {
    FieldsAppend(a, '"');
    var n := QuoteCount(a);
    assert n % 2 == 0 && QuoteCount(a + ['"']) == n + 1;
  }

  lemma {:induction false} AppendLastEmpty(f: seq<string>)
    requires |f| > 0
    ensures AppendLast(f, []) == f
  {
    assert f[|f| - 1] + [] == f[|f| - 1];
    assert f[..|f| - 1] + [f[|f| - 1]] == f;
  }

  lemma {:induction false} QuotedSpanStep(a: string, b: string, c: char)
    requires NoUnquotedDollar(a) && c != '"'
    requires NoUnquotedDollar(a + ['"'] + b) && Quoted(a + ['"'] + b)
    requires Fields(a + ['"'] + b) == AppendLast(Fields(a), b)
    ensures NoUnquotedDollar((a + ['"'] + b) + [c]) && Quoted((a + ['"'] + b) + [c])
    ensures Fields((a + ['"'] + b) + [c]) == AppendLast(Fields(a), b + [c])
  {
    FieldsAppend(a + ['"'] + b, c);
    AppendLastTwice(Fields(a), b, [c]);
  }

  /**
   * A closed quoted span joins the text around it: `a` followed by `"b"` adds
   * `b` verbatim to the current field, and the next character is outside
   * quotes again.
   */
  lemma {:induction false} ClosedQuotedSpan(a: string, b: string)
    requires NoUnquotedDollar(a) && !Quoted(a) && '"' !in b
    ensures NoUnquotedDollar(a + ['"'] + b + ['"']) && !Quoted(a + ['"'] + b + ['"'])
    ensures Fields(a + ['"'] + b + ['"']) == AppendLast(Fields(a), b)
  {
    QuotedSpan(a, b);
    FieldsAppend(a + ['"'] + b, '"');
  }

  /** Number of `"` is additive over concatenation. */
  lemma {:induction false} QuoteCountConcat(a: string, b: string)
    ensures QuoteCount(a + b) == QuoteCount(a) + QuoteCount(b)
    decreases |b|
  {
    if b != [] {
      var b', c := b[..|b| - 1], b[|b| - 1];
      assert a + b == (a + b') + [c] && b == b' + [c];
      QuoteCountConcat(a, b');
      QuoteCountAppend(a + b', c);
      QuoteCountAppend(b', c);
    } else {
      assert a + b == a;
    }
  }

  /** After a prefix outside quotes, the quote state depends on the rest only. */
  lemma {:induction false} QuotedAfter(a: string, b: string)
    requires !Quoted(a)
    ensures Quoted(a + b) == Quoted(b)
  {
    QuoteCountConcat(a, b);
  }

  /** The last field of `f` glued to the first field of `g`. */
  function Join(f: seq<string>, g: seq<string>): seq<string>
    requires |f| > 0 && |g| > 0
  {
    f[..|f| - 1] + [f[|f| - 1] + g[0]] + g[1..]
  }

  lemma {:induction false} FeedJoin(f: seq<string>, g: seq<string>, quoted: bool, c: char)
    requires |f| > 0 && |g| > 0 && (quoted || c != '$')
    ensures Feed(Join(f, g), quoted, c) == Join(f, Feed(g, quoted, c))
  {
    var n := |f|;
    if c == '"' || (!quoted && c == '\n') {
    } else if !quoted && c == ' ' {
      assert Join(f, g + [""]) == Join(f, g) + [""] by {
        assert (g + [""])[1..] == g[1..] + [""];
      }
    } else {
      var j := Join(f, g);
      var g' := AppendLast(g, [c]);
      if |g| == 1 {
        assert j == f[..n - 1] + [f[n - 1] + g[0]];
        assert g' == [g[0] + [c]];
        assert (f[n - 1] + g[0]) + [c] == f[n - 1] + (g[0] + [c]);
        assert AppendLast(j, [c]) == f[..n - 1] + [(f[n - 1] + g[0]) + [c]] by {
          assert j[..|j| - 1] == f[..n - 1];
        }
      } else {
        assert g'[0] == g[0] && g'[1..] == g[1..|g| - 1] + [g[|g| - 1] + [c]];
        assert j[..|j| - 1] == f[..n - 1] + [f[n - 1] + g[0]] + g[1..|g| - 1];
      }
    }
  }

  /**
   * Splitting a line after a point outside quotes: the fields of the whole
   * line are those of the two parts, with the last field of the first part
   * and the first field of the second part glued together.
   */
  lemma {:induction false} FieldsConcat(a: string, b: string)
    requires NoUnquotedDollar(a) && !Quoted(a) && NoUnquotedDollar(b)
    ensures NoUnquotedDollar(a + b)
    ensures Fields(a + b) == Join(Fields(a), Fields(b))
    decreases |b|
  {
    if b == [] {
      assert a + b == a;
      JoinEmptyField(Fields(a));
    } else {
      var b', c := b[..|b| - 1], b[|b| - 1];
      NoUnquotedDollarInit(b);
      FieldsConcat(a, b');
      FieldsConcatStep(a, b', c);
      assert a + b == (a + b') + [c];
    }
  }

  lemma {:induction false} JoinEmptyField(f: seq<string>)
    requires |f| > 0
    ensures Join(f, [""]) == f
  {
    assert f[|f| - 1] + "" == f[|f| - 1];
    assert f[..|f| - 1] + [f[|f| - 1]] == f;
  }

  lemma {:induction false} FieldsConcatStep(a: string, b: string, c: char)
    requires NoUnquotedDollar(a) && !Quoted(a) && NoUnquotedDollar(b) && (Quoted(b) || c != '$')
    requires NoUnquotedDollar(a + b) && Fields(a + b) == Join(Fields(a), Fields(b))
    ensures NoUnquotedDollar((a + b) + [c])
    ensures Fields((a + b) + [c]) == Join(Fields(a), Fields(b + [c]))
  {
    QuotedAfter(a, b);
    FieldsAppend(a + b, c);
    FieldsAppend(b, c);
    FeedJoin(Fields(a), Fields(b), Quoted(b), c);
  }

  /**
   * A space outside quotes separates the fields on its two sides and nothing
   * else happens to them: runs of spaces are not collapsed.
   */
  lemma {:induction false} SpaceSeparates(a: string, b: string)
    requires NoUnquotedDollar(a) && !Quoted(a) && NoUnquotedDollar(b)
    ensures NoUnquotedDollar(a + [' '] + b)
    ensures Fields(a + [' '] + b) == Fields(a) + Fields(b)
  {
    FieldsAppend(a, ' ');
    FieldsConcat(a + [' '], b);
    JoinAfterNewField(Fields(a), Fields(b));
  }

  lemma {:induction false} JoinAfterNewField(f: seq<string>, g: seq<string>)
    requires |g| > 0
    ensures Join(f + [""], g) == f + g
  {
    assert (f + [""])[..|f|] == f;
    assert "" + g[0] == g[0];
    assert [g[0]] + g[1..] == g;
  }

  /** A character that neither splits, quotes, is dropped nor stalls the loop. */
  predicate Ordinary(c: char)
  {
    c != ' ' && c != '"' && c != '\n' && c != '$'
  }

  /** A word made of ordinary characters only. */
  predicate Plain(w: string)
  {
    forall i :: 0 <= i < |w| ==> Ordinary(w[i])
  }

  /** A plain word is a single field, itself. */
  lemma {:induction false} PlainIsOneField(w: string)
    requires Plain(w)
    ensures NoUnquotedDollar(w) && !Quoted(w) && Fields(w) == [w]
    decreases |w|
  {
    if w != [] {
      var w', c := w[..|w| - 1], w[|w| - 1];
      assert w == w' + [c];
      assert Plain(w') by {
        forall i | 0 <= i < |w'| ensures Ordinary(w'[i]) {
          assert w'[i] == w[i];
        }
      }
      PlainIsOneField(w');
      PlainStep(w', c);
    }
  }

  lemma {:induction false} PlainStep(u: string, c: char)
    requires NoUnquotedDollar(u) && !Quoted(u) && Fields(u) == [u] && Ordinary(c)
    ensures NoUnquotedDollar(u + [c]) && !Quoted(u + [c]) && Fields(u + [c]) == [u + [c]]
  {
    FieldsAppend(u, c);
    assert [u][..0] == [];
    assert AppendLast([u], [c]) == [u + [c]];
  }

  /**
   * Quoted text joins the words around it into one field: `a"b"d` with plain
   * `a` and `d` is the single field `abd`, whatever spaces `b` holds
   * (`a"b c"d` gives `ab cd`).
   */
  lemma {:induction false} QuotedTextJoinsNeighbours(a: string, b: string, d: string)
    requires Plain(a) && Plain(d) && '"' !in b
    ensures NoUnquotedDollar(a + ['"'] + b + ['"'] + d)
    ensures Fields(a + ['"'] + b + ['"'] + d) == [a + b + d]
  {
    PlainIsOneField(a);
    PlainIsOneField(d);
    ClosedQuotedSpan(a, b);
    var t := a + ['"'] + b + ['"'];
    assert Fields(t) == [a + b] by {
      assert AppendLast([a], b) == [a + b];
    }
    FieldsConcat(t, d);
    assert Join([a + b], [d]) == [a + b + d];
  }

  /** The fields written back out with one space between neighbours. */
  function Unsplit(fields: seq<string>): string
    requires |fields| > 0
  {
    if |fields| == 1 then fields[0]
    else Unsplit(fields[..|fields| - 1]) + [' '] + fields[|fields| - 1]
  }

  /** Every field is a plain word. */
  predicate AllPlain(fields: seq<string>)
  {
    forall k :: 0 <= k < |fields| ==> Plain(fields[k])
  }

  /**
   * Plain words joined with single spaces split back into the same words:
   * splitting undoes joining.
   */
  lemma {:induction false} FieldsUnsplit(fields: seq<string>)
    requires |fields| > 0 && AllPlain(fields)
    ensures NoUnquotedDollar(Unsplit(fields)) && !Quoted(Unsplit(fields))
    ensures Fields(Unsplit(fields)) == fields
    decreases |fields|
  {
    var last := fields[|fields| - 1];
    assert Plain(last);
    PlainIsOneField(last);
    if |fields| > 1 {
      var init := fields[..|fields| - 1];
      assert AllPlain(init) by {
        forall k | 0 <= k < |init| ensures Plain(init[k]) {
          assert init[k] == fields[k];
        }
      }
      FieldsUnsplit(init);
      var u := Unsplit(init);
      SpaceSeparates(u, last);
      FieldsAppend(u, ' ');
      QuotedAfter(u + [' '], last);
      assert init + [last] == fields;
    } else {
      assert [last] == fields;
    }
  }

  /**
   * Re-joining a line's fields with single spaces and splitting again gives
   * the same fields, when the fields are plain words.
   */
  lemma {:induction false} SplitIdempotent(s: string)
    requires NoUnquotedDollar(s) && AllPlain(Fields(s))
    ensures NoUnquotedDollar(Unsplit(Fields(s)))
    ensures Fields(Unsplit(Fields(s))) == Fields(s)
  {
    FieldsUnsplit(Fields(s));
  }

  // ---------------------------------------------------------------------
  // The loop.

  /**
   * The state at the head of the outer loop: the fields built so far are
   * those of the line up to `pos`, which lies outside quotes; or `pos` is one
   * past the end after an unterminated quote and the fields are complete.
   */
  predicate Outside(data: string, pos: nat, res: seq<string>)
  {
    pos <= |data| + 1 &&
    (pos <= |data| ==>
      NoUnquotedDollar(data[..pos]) && !Quoted(data[..pos]) && res == Fields(data[..pos])) &&
    (pos == |data| + 1 ==> NoUnquotedDollar(data) && res == Fields(data))
  }

  /** The state inside a quoted span: the fields are those of the line up to `pos`. */
  predicate Inside(data: string, pos: nat, res: seq<string>)
  {
    pos <= |data| && NoUnquotedDollar(data[..pos]) && Quoted(data[..pos]) &&
    res == Fields(data[..pos])
  }

  /**
   * Outside quotes a space starts a new field, a newline is dropped and any
   * other character except `"` and `$` is added to the last field.
   */
  lemma {:induction false} UnquotedStep(data: string, pos: nat, res: seq<string>)
    requires Outside(data, pos, res) && pos < |data| && data[pos] != '"' && data[pos] != '$'
    ensures Outside(data, pos + 1,
      if data[pos] == ' ' then res + [""]
      else if data[pos] == '\n' then res
      else res[..|res| - 1] + [res[|res| - 1] + [data[pos]]])
  {
    FieldsSnoc(data, pos);
  }

  /** An opening `"` leaves the fields alone and enters a quoted span. */
  lemma {:induction false} OpenQuoteStep(data: string, pos: nat, res: seq<string>)
    requires Outside(data, pos, res) && pos < |data| && data[pos] == '"'
    ensures Inside(data, pos + 1, res)
  {
    FieldsSnoc(data, pos);
  }

  /** A character inside a quoted span other than `"` is added to the last field. */
  lemma {:induction false} QuotedCharStep(data: string, pos: nat, res: seq<string>)
    requires Inside(data, pos, res) && pos < |data| && data[pos] != '"'
    ensures |res| > 0 && Inside(data, pos + 1, res[..|res| - 1] + [res[|res| - 1] + [data[pos]]])
  {
    FieldsSnoc(data, pos);
  }

  /**
   * The inner loop stops at the closing `"`, which is skipped, or at the end
   * of the line, where `pos` steps one past the length.
   */
  lemma {:induction false} QuotedSpanEnd(data: string, pos: nat, res: seq<string>)
    requires Inside(data, pos, res) && (pos < |data| ==> data[pos] == '"')
    ensures Outside(data, pos + 1, res)
  {
    if pos < |data| {
      FieldsSnoc(data, pos);
    } else {
      assert data[..pos] == data;
    }
  }

  /** When the outer loop stops, the fields are those of the whole line. */
  lemma {:induction false} OutsideDone(data: string, pos: nat, res: seq<string>)
    requires Outside(data, pos, res) && pos >= |data|
    ensures NoUnquotedDollar(data) && res == Fields(data)
  {
    if pos == |data| {
      assert data[..pos] == data;
    }
  }

  /**
   * `parse_argv`: the outer loop walks the line with `pos`, the inner loop
   * copies a quoted span. The `$` arm does nothing and does not advance, so
   * the method is given only lines with no `$` outside quotes (see
   * `UnquotedDollarHangs` for what happens otherwise).
   */
  method ParseArgv(total: string) returns (res: seq<string>)
    requires NoUnquotedDollar(total)
    ensures res == Fields(total)
  {
    res := [];
    var pos: nat := 0;
    var data := total;
    res := res + [""];
    assert data[..0] == [];
    while pos < |data|
      invariant Outside(data, pos, res)
      decreases |data| + 1 - pos
    {
      if data[pos] == ' ' {
        UnquotedStep(data, pos, res);
        res := res + [""];
        pos := pos + 1;
      } else if data[pos] == '$' {
        DollarIsQuoted(data, pos);
        assert false;
      } else if data[pos] == '"' {
        OpenQuoteStep(data, pos, res);
        pos := pos + 1;
        while pos < |data| && data[pos] != '"'
          invariant Inside(data, pos, res)
        {
          QuotedCharStep(data, pos, res);
          res := res[..|res| - 1] + [res[|res| - 1] + [data[pos]]];
          pos := pos + 1;
        }
        QuotedSpanEnd(data, pos, res);
        pos := pos + 1;
      } else if data[pos] == '\n' {
        UnquotedStep(data, pos, res);
        pos := pos + 1;
      } else {
        UnquotedStep(data, pos, res);
        res := res[..|res| - 1] + [res[|res| - 1] + [data[pos]]];
        pos := pos + 1;
      }
    }
    OutsideDone(data, pos, res);
  }


  // ---------------------------------------------------------------------
  // One round of the outer loop, and what it does on an unquoted `$`.

  /** Index of the first `"` at or after `i`, or the line's length if there is none. */
  function NextQuote(data: string, i: nat): (j: nat)
    requires i <= |data|
    ensures i <= j <= |data|
    ensures j < |data| ==> data[j] == '"'
    ensures forall k :: i <= k < j ==> data[k] != '"'
    decreases |data| - i
  {
    if i == |data| || data[i] == '"' then i else NextQuote(data, i + 1)
  }

  lemma {:induction false} QuoteSplit(data: string, pos: nat, j: nat)
    requires pos < j <= |data| && data[pos] == '"'
    ensures data[..j] == data[..pos] + ['"'] + data[pos + 1..j]
  {
    var r := data[..pos] + ['"'] + data[pos + 1..j];
    assert |r| == j;
    forall k | 0 <= k < j
      ensures r[k] == data[k]
    {
      if k < pos {
      } else if k == pos {
      } else {
        assert r[k] == data[pos + 1..j][k - pos - 1];
      }
    }
  }

  lemma {:induction false} NoQuoteBeforeNext(data: string, i: nat)
    requires i <= |data|
    ensures '"' !in data[i..NextQuote(data, i)]
  {
    var b := data[i..NextQuote(data, i)];
    assert forall k :: 0 <= k < |b| ==> b[k] == data[i + k];
  }

  /** One round of the outer loop from position `pos` with fields `res`. */
  function Step(data: string, pos: nat, res: seq<string>): (r: (nat, seq<string>))
    requires pos < |data| && |res| > 0
    ensures |r.1| > 0 && r.0 <= |data| + 1
    ensures pos <= r.0 && |res| <= |r.1|
    ensures r.0 == pos <==> data[pos] == '$'
  {
    var c := data[pos];
    if c == ' ' then (pos + 1, res + [""])
    else if c == '$' then (pos, res)
    else if c == '"' then
      var j := NextQuote(data, pos + 1);
      (j + 1, AppendLast(res, data[pos + 1..j]))
    else if c == '\n' then (pos + 1, res)
    else (pos + 1, AppendLast(res, [c]))
  }

  /** The state after at most `n` rounds of the outer loop. */
  function Iterate(data: string, pos: nat, res: seq<string>, n: nat): (r: (nat, seq<string>))
    requires pos <= |data| + 1 && |res| > 0
    ensures pos <= r.0 <= |data| + 1 && |res| <= |r.1|
    ensures n > 0 && pos < |data| && data[pos] != '$' ==> pos < r.0
    decreases n
  {
    if n == 0 || pos >= |data| then (pos, res)
    else
      var next := Step(data, pos, res);
      Iterate(data, next.0, next.1, n - 1)
  }

  /** On a `$` the loop state is a fixed point: no number of rounds moves it. */
  lemma {:induction false} DollarStalls(data: string, pos: nat, res: seq<string>, n: nat)
    requires pos < |data| && data[pos] == '$' && |res| > 0
    ensures Iterate(data, pos, res, n) == (pos, res)
    decreases n
  {
    if n > 0 {
      DollarStalls(data, pos, res, n - 1);
    }
  }

  lemma {:induction false} QuoteCountNoQuotes(s: string, i: nat, j: nat)
    requires i <= j <= |s|
    requires forall k :: i <= k < j ==> s[k] != '"'
    ensures QuoteCount(s[..j]) == QuoteCount(s[..i])
    decreases j - i
  {
    if i < j {
      QuoteCountNoQuotes(s, i, j - 1);
      QuoteCountSnoc(s, j - 1);
    }
  }

  /** A round that starts outside quotes before the first unquoted `$` at `k` ends outside quotes, not past `k`. */
  lemma {:induction false} StepBeforeDollar(data: string, pos: nat, res: seq<string>, k: nat)
    requires k < |data| && data[k] == '$' && !Quoted(data[..k]) && NoUnquotedDollar(data[..k])
    requires pos < k && !Quoted(data[..pos]) && |res| > 0
    ensures Step(data, pos, res).0 <= k && !Quoted(data[..Step(data, pos, res).0])
  {
    if data[pos] == '$' {
      assert data[..k][pos] == '$' && data[..k][..pos] == data[..pos];
      DollarIsQuoted(data[..k], pos);
      assert false;
    }
    if data[pos] == '"' {
      QuoteBeforeDollar(data, pos, k);
      assert Step(data, pos, res).0 == NextQuote(data, pos + 1) + 1;
    } else {
      QuoteCountSnoc(data, pos);
      assert Step(data, pos, res).0 == pos + 1;
    }
  }

  /** A quoted span opened before the first unquoted `$` closes before it. */
  lemma {:induction false} QuoteBeforeDollar(data: string, pos: nat, k: nat)
    requires k < |data| && !Quoted(data[..k])
    requires pos < k && !Quoted(data[..pos]) && data[pos] == '"'
    ensures NextQuote(data, pos + 1) < k && !Quoted(data[..NextQuote(data, pos + 1) + 1])
  {
    var j := NextQuote(data, pos + 1);
    if j >= k {
      QuotedUntilNextQuote(data, pos, k);
      assert false;
    }
    QuotedUntilNextQuote(data, pos, j);
    QuoteCountSnoc(data, j);
  }

  /** Every position after an opening `"` up to the next `"` lies inside quotes. */
  lemma {:induction false} QuotedUntilNextQuote(data: string, pos: nat, m: nat)
    requires pos < |data| && !Quoted(data[..pos]) && data[pos] == '"'
    requires pos < m <= NextQuote(data, pos + 1)
    ensures Quoted(data[..m])
  {
    QuoteCountSnoc(data, pos);
    QuoteCountNoQuotes(data, pos + 1, m);
  }

  /** Before reaching the first unquoted `$` at `k` the loop never passes it. */
  lemma {:induction false} NeverPastDollar(data: string, pos: nat, res: seq<string>, k: nat, n: nat)
    requires k < |data| && data[k] == '$' && !Quoted(data[..k]) && NoUnquotedDollar(data[..k])
    requires pos <= k && !Quoted(data[..pos]) && |res| > 0
    ensures Iterate(data, pos, res, n).0 <= k
    decreases n
  {
    if n > 0 {
      if pos == k {
        DollarStalls(data, pos, res, n);
      } else {
        var next := Step(data, pos, res);
        StepBeforeDollar(data, pos, res, k);
        NeverPastDollar(data, next.0, next.1, k, n - 1);
      }
    }
  }

  /** The first `$` of `s` that lies outside quotes. */
  lemma {:induction false} FirstUnquotedDollar(s: string) returns (k: nat)
    requires !NoUnquotedDollar(s)
    ensures k < |s| && s[k] == '$' && !Quoted(s[..k]) && NoUnquotedDollar(s[..k])
    decreases |s|
  {
    var init := s[..|s| - 1];
    if !NoUnquotedDollar(init) {
      k := FirstUnquotedDollar(init);
      assert s[k] == init[k] && s[..k] == init[..k];
    } else {
      k := |s| - 1;
    }
  }

  /**
   * A line with a `$` outside quotes keeps the loop condition `pos < len`
   * true after any number of rounds: `parse_argv` never returns on it.
   */
  lemma {:induction false} UnquotedDollarHangs(data: string)
    requires !NoUnquotedDollar(data)
    ensures forall n :: Iterate(data, 0, [""], n).0 < |data|
  {
    var k := FirstUnquotedDollar(data);
    assert data[..0] == [];
    forall n: nat ensures Iterate(data, 0, [""], n).0 < |data| {
      NeverPastDollar(data, 0, [""], k, n);
    }
  }

  /**
   * On a line with no `$` outside quotes, a round that starts outside quotes
   * moves forward and ends outside quotes, with the fields of the longer
   * prefix.
   */
  lemma {:induction false} StepKeepsOutside(data: string, pos: nat, res: seq<string>)
    requires NoUnquotedDollar(data) && Outside(data, pos, res) && pos < |data|
    ensures Step(data, pos, res).0 > pos
    ensures Outside(data, Step(data, pos, res).0, Step(data, pos, res).1)
  {
    var c := data[pos];
    if c == '$' {
      DollarIsQuoted(data, pos);
      assert false;
    } else if c == '"' {
      QuotedRound(data, pos, res);
    } else {
      UnquotedStep(data, pos, res);
      assert Step(data, pos, res) == (pos + 1,
        if c == ' ' then res + [""]
        else if c == '\n' then res
        else res[..|res| - 1] + [res[|res| - 1] + [c]]);
    }
  }

  /** A round that starts on a `"`: the quoted span is copied and the loop is outside quotes again. */
  lemma {:induction false} QuotedRound(data: string, pos: nat, res: seq<string>)
    requires Outside(data, pos, res) && pos < |data| && data[pos] == '"'
    ensures Outside(data, Step(data, pos, res).0, Step(data, pos, res).1)
  {
    var j := NextQuote(data, pos + 1);
    var a, b := data[..pos], data[pos + 1..j];
    assert Step(data, pos, res) == (j + 1, AppendLast(res, b));
    NoQuoteBeforeNext(data, pos + 1);
    QuoteSplit(data, pos, j);
    if j < |data| {
      ClosedQuotedSpan(a, b);
      assert data[..j + 1] == data[..j] + [data[j]];
    } else {
      QuotedSpan(a, b);
      assert data[..j] == data;
    }
  }

  /** Enough rounds from a state outside quotes reach the end with the whole line's fields. */
  lemma {:induction false} IterateComputesFields(data: string, pos: nat, res: seq<string>, n: nat)
    requires NoUnquotedDollar(data) && Outside(data, pos, res) && pos + n > |data|
    ensures Iterate(data, pos, res, n).0 >= |data|
    ensures Iterate(data, pos, res, n).1 == Fields(data)
    decreases n
  {
    if pos >= |data| {
      OutsideDone(data, pos, res);
    } else {
      StepKeepsOutside(data, pos, res);
      var next := Step(data, pos, res);
      IterateComputesFields(data, next.0, next.1, n - 1);
    }
  }

  /**
   * The outer loop, run round by round, leaves after at most one round per
   * character exactly when no `$` lies outside quotes, and then holds the
   * fields of the line.
   */
  lemma {:induction false} LoopFinishesIff(data: string)
    ensures Iterate(data, 0, [""], |data| + 1).0 >= |data| <==> NoUnquotedDollar(data)
    ensures NoUnquotedDollar(data) ==> Iterate(data, 0, [""], |data| + 1).1 == Fields(data)
  {
    if NoUnquotedDollar(data) {
      assert data[..0] == [];
      IterateComputesFields(data, 0, [""], |data| + 1);
    } else {
      UnquotedDollarHangs(data);
      var n := |data| + 1;
      assert Iterate(data, 0, [""], n).0 < |data|;
    }
  }

  /** Example: the `$` outside quotes in `echo $HOME` hangs the loop. */
  lemma {:induction false} DollarExampleHangs()
    ensures forall n :: Iterate("echo $HOME", 0, [""], n).0 < 10
  {
    var s := "echo $HOME";
    assert s[5] == '$';
    assert s[..5] == "echo ";
    assert QuoteCount(s[..5]) == 0 by {
      QuoteCountNoQuotes(s, 0, 5);
      assert s[..0] == [];
    }
    if NoUnquotedDollar(s) {
      DollarIsQuoted(s, 5);
      assert false;
    }
    UnquotedDollarHangs(s);
  }
}
