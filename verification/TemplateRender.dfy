/** `render_template` in linkmoth_webhooks.py: one pass of placeholder substitution. */
module TemplateRender {
  import opened Options
  import opened JsonStrings

  /** A context value: what `str` gives and what `json.dumps` gives. */
  datatype Value = Value(text: string, json: string)

  type Context = map<string, Value>

  const RAW_VARIABLES: set<string> := {"duration_seconds", "timestamp_unix", "delayed"}

  /** The classes \w and \s of the regular expression. Which letters beyond ASCII belong to \w is not fixed
      here; what matters is that braces, quotes and backslashes belong to neither class. */
  datatype Classes = Classes(word: char -> bool, space: char -> bool)

  predicate Special(c: char) {
    c == '{' || c == '}' || c == '\"' || c == '\\'
  }

  ghost predicate Sane(classes: Classes) {
    forall c :: Special(c) ==> !classes.word(c) && !classes.space(c)
  }

  /** Where the characters from `i` on stop belonging to a class. */
  function SpanEnd(s: string, i: nat, p: char -> bool): (r: nat)
    requires i <= |s|
    ensures i <= r <= |s|
    ensures forall j :: i <= j < r ==> p(s[j])
    ensures r < |s| ==> !p(s[r])
    decreases |s| - i
  {
    if i < |s| && p(s[i]) then SpanEnd(s, i + 1, p) else i
  }

  datatype Match = Match(key: string, size: nat)

  /** A placeholder at the very start of `s`. */
  function MatchAt(s: string, classes: Classes): (r: Option<Match>)
    ensures r.Some? ==> 4 < r.value.size <= |s| && s[0] == '{' && r.value.key != []
  {
    if |s| < 2 || s[0] != '{' || s[1] != '{' then None
    else
      var a := SpanEnd(s, 2, classes.space);
      var b := SpanEnd(s, a, classes.word);
      var c := SpanEnd(s, b, classes.space);
      if a < b && c + 2 <= |s| && s[c] == '}' && s[c + 1] == '}' then Some(Match(s[a..b], c + 2)) else None
  }

  /** What a placeholder is replaced by. */
  function Replacement(key: string, ctx: Context): string {
    if key !in ctx then []
    else if key in RAW_VARIABLES then ctx[key].json
    else Escape(ctx[key].text)
  }

  /** `re.sub`: the leftmost placeholders, never looking again at what was put in. */
  function Render(template: string, ctx: Context, classes: Classes): string
    decreases |template|
  {
    if template == [] then []
    else
      match MatchAt(template, classes)
      case Some(m) => Replacement(m.key, ctx) + Render(template[m.size..], ctx, classes)
      case None => [template[0]] + Render(template[1..], ctx, classes)
  }

  // ----- what a placeholder looks like -----

  /** No character is both a letter of a word and a space. */
  ghost predicate Disjoint(classes: Classes) {
    forall c :: !(classes.word(c) && classes.space(c))
  }

  /** Two braces, spaces up to `a`, a word up to `b`, spaces up to `c`, two braces. */
  ghost predicate IsPlaceholder(s: string, a: nat, b: nat, c: nat, classes: Classes) {
    && 2 <= a < b <= c && c + 2 <= |s|
    && s[0] == '{' && s[1] == '{' && s[c] == '}' && s[c + 1] == '}'
    && (forall i :: 2 <= i < a ==> classes.space(s[i]))
    && (forall i :: a <= i < b ==> classes.word(s[i]))
    && (forall i :: b <= i < c ==> classes.space(s[i]))
  }

  lemma SpanEndIs(s: string, i: nat, r: nat, p: char -> bool)
    requires i <= r <= |s| && (forall j :: i <= j < r ==> p(s[j])) && (r < |s| ==> !p(s[r]))
    ensures SpanEnd(s, i, p) == r
  {
  }

  /** A placeholder is found, with exactly its word as its key, whatever follows. */
  lemma PlaceholderIsFound(s: string, a: nat, b: nat, c: nat, classes: Classes)
    requires Sane(classes) && Disjoint(classes) && IsPlaceholder(s, a, b, c, classes)
    ensures MatchAt(s, classes) == Some(Match(s[a..b], c + 2))
  {
    assert Special('}');
    assert classes.word(s[a]) && !classes.space(s[a]);
    assert !classes.word(s[b]);
    SpanEndIs(s, 2, a, classes.space);
    SpanEndIs(s, a, b, classes.word);
    SpanEndIs(s, b, c, classes.space);
  }

  /** And nothing else is found. */
  lemma OnlyPlaceholdersAreFound(s: string, classes: Classes) returns (a: nat, b: nat, c: nat)
    requires MatchAt(s, classes).Some?
    ensures IsPlaceholder(s, a, b, c, classes)
    ensures MatchAt(s, classes) == Some(Match(s[a..b], c + 2))
  {
    a := SpanEnd(s, 2, classes.space);
    b := SpanEnd(s, a, classes.word);
    c := SpanEnd(s, b, classes.space);
  }

  /** A key the context does not have renders as nothing, the three raw variables as `json.dumps` writes them, and any
      other as its escaped text. */
  lemma ReplacementTells(key: string, ctx: Context)
    ensures key !in ctx ==> Replacement(key, ctx) == ""
    ensures key in ctx && (key == "duration_seconds" || key == "timestamp_unix" || key == "delayed") ==>
      Replacement(key, ctx) == ctx[key].json
    ensures key in ctx && key != "duration_seconds" && key != "timestamp_unix" && key != "delayed" ==>
      Units(Replacement(key, ctx)) == Some(Utf16(ctx[key].text))
  {
    if key in ctx {
      EscapeRoundTrip(ctx[key].text);
    }
  }

  // ----- what a rendered literal denotes -----

  /** The text a placeholder stands for. */
  function Meant(key: string, ctx: Context): string {
    if key !in ctx then [] else if key in RAW_VARIABLES then ctx[key].json else ctx[key].text
  }

  /** Numbers, truth values and null, as `json.dumps` writes them, need no escaping. */
  ghost predicate RawValuesArePlain(ctx: Context) {
    forall key :: key in ctx && key in RAW_VARIABLES ==> Units(ctx[key].json) == Some(Utf16(ctx[key].json))
  }

  /** Well-formedness carries over to what follows a few plain characters. */
  lemma {:induction false} DropPlain(s: string, k: nat)
    requires WellFormed(s) && k <= |s| && forall i :: 0 <= i < k ==> s[i] != '\\'
    ensures WellFormed(s[k..])
  {
    if k > 0 {
      assert FirstToken(s).value.size == 1;
      DropPlain(s[1..], k - 1);
      assert s[1..][k - 1..] == s[k..];
    } else {
      assert s[0..] == s;
    }
  }

  lemma PlaceholderIsPlain(s: string, classes: Classes)
    requires Sane(classes) && MatchAt(s, classes).Some?
    ensures forall i :: 0 <= i < MatchAt(s, classes).value.size ==> s[i] != '\\'
  {
    assert Special('\\') && Special('{') && Special('}');
    var a, b, c := OnlyPlaceholdersAreFound(s, classes);
    hide MatchAt;
  }

  /** The code units of a well-formed literal whose placeholders stand for their texts. */
  ghost function Meaning(template: string, ctx: Context, classes: Classes): seq<int>
    requires WellFormed(template) && Sane(classes)
    decreases |template|
  {
    if template == [] then []
    else
      match MatchAt(template, classes)
      case Some(m) =>
        PlaceholderIsPlain(template, classes);
        DropPlain(template, m.size);
        Utf16(Meant(m.key, ctx)) + Meaning(template[m.size..], ctx, classes)
      case None =>
        var t := FirstToken(template).value;
        t.units + Meaning(template[t.size..], ctx, classes)
  }

  lemma ReplacementMeans(key: string, ctx: Context)
    requires RawValuesArePlain(ctx)
    ensures Units(Replacement(key, ctx)) == Some(Utf16(Meant(key, ctx)))
  {
    if key in ctx && key !in RAW_VARIABLES {
      EscapeRoundTrip(ctx[key].text);
    }
  }

  /** Characters that start no placeholder are copied. */
  lemma {:induction false} RenderCopies(s: string, k: nat, ctx: Context, classes: Classes)
    requires k <= |s| && (k > 0 ==> MatchAt(s, classes).None?) && forall j :: 1 <= j < k ==> s[j] != '{'
    ensures Render(s, ctx, classes) == s[..k] + Render(s[k..], ctx, classes)
  {
    hide MatchAt, Replacement;
    if k == 0 {
      assert s[0..] == s;
    } else if k == 1 {
      assert s[..1] == [s[0]];
    } else {
      RenderCopies(s[1..], k - 1, ctx, classes);
      assert s[1..][k - 1..] == s[k..];
      assert [s[0]] + s[1..][..k - 1] == s[..k];
    }
  }

  /** Rendering inside a well-formed JSON string literal: the result is well-formed, and it denotes the template's
      own text with the value of every placeholder in its place, character for character. */
  lemma {:induction false} RenderedLiteralMeans(template: string, ctx: Context, classes: Classes)
    requires WellFormed(template) && Sane(classes) && RawValuesArePlain(ctx)
    ensures Units(Render(template, ctx, classes)) == Some(Meaning(template, ctx, classes))
    decreases |template|
  {
    if template != [] {
      match MatchAt(template, classes)
      case Some(m) =>
        PlaceholderIsPlain(template, classes);
        DropPlain(template, m.size);
        ReplacementMeans(m.key, ctx);
        RenderedLiteralMeans(template[m.size..], ctx, classes);
        UnitsConcat(Replacement(m.key, ctx), Render(template[m.size..], ctx, classes));
      case None =>
        var t := FirstToken(template).value;
        NoBraceInside(template);
        RenderCopies(template, t.size, ctx, classes);
        RenderedLiteralMeans(template[t.size..], ctx, classes);
        FirstTokenAlone(template);
        UnitsConcat(template[..t.size], Render(template[t.size..], ctx, classes));
    }
  }

  lemma FirstTokenAlone(s: string)
    requires s != [] && FirstToken(s).Some?
    ensures Units(s[..FirstToken(s).value.size]) == Some(FirstToken(s).value.units)
  {
    var t := FirstToken(s).value;
    var a := s[..t.size];
    assert forall i :: 0 <= i < |a| ==> a[i] == s[i];
    assert FirstToken(a) == Some(t);
    OneToken(a, t.units);
  }

  // ----- a placeholder between two texts -----

  ghost predicate NoPlaceholder(s: string) {
    forall i :: 0 <= i < |s| ==> s[i] != '{'
  }

  lemma {:induction false} RenderPlainText(pre: string, rest: string, ctx: Context, classes: Classes)
    requires NoPlaceholder(pre)
    ensures Render(pre + rest, ctx, classes) == pre + Render(rest, ctx, classes)
  {
    hide MatchAt, Replacement;
    if pre == [] {
      assert pre + rest == rest;
    } else {
      assert (pre + rest)[1..] == pre[1..] + rest;
      RenderPlainText(pre[1..], rest, ctx, classes);
    }
  }

  lemma RenderHole(hole: string, post: string, ctx: Context, classes: Classes)
    requires NoPlaceholder(post)
    requires MatchAt(hole + post, classes).Some? && MatchAt(hole + post, classes).value.size == |hole|
    ensures Render(hole + post, ctx, classes) == Replacement(MatchAt(hole + post, classes).value.key, ctx) + post
  {
    hide MatchAt, Replacement;
    assert (hole + post)[|hole|..] == post && post + [] == post;
    RenderPlainText(post, [], ctx, classes);
  }

  lemma UnitsBetween(pre: string, value: string, post: string, p: string, v: string, q: string)
    requires Units(pre) == Some(Utf16(p)) && Units(value) == Some(Utf16(v)) && Units(post) == Some(Utf16(q))
    ensures Units(pre + value + post) == Some(Utf16(p + v + q))
  {
    hide Units, Utf16;
    UnitsConcat(pre, value);
    Utf16Concat(p, v);
    UnitsConcat(pre + value, post);
    Utf16Concat(p + v, q);
  }

  /** A text value is put in once and never expanded again: whatever it contains, placeholders of its own
      included, the reader of the literal sees the surrounding text with exactly that value between. */
  lemma ValueStandsVerbatim(pre: string, hole: string, post: string, p: string, q: string,
                            ctx: Context, classes: Classes)
    requires NoPlaceholder(pre) && NoPlaceholder(post)
    requires Units(pre) == Some(Utf16(p)) && Units(post) == Some(Utf16(q))
    requires MatchAt(hole + post, classes).Some? && MatchAt(hole + post, classes).value.size == |hole|
    requires var key := MatchAt(hole + post, classes).value.key; key in ctx && key !in RAW_VARIABLES
    ensures var v := ctx[MatchAt(hole + post, classes).value.key].text;
      && Render(pre + (hole + post), ctx, classes) == pre + Escape(v) + post
      && Units(pre + Escape(v) + post) == Some(Utf16(p + v + q))
      && Text(Utf16(p + v + q)) == Some(p + v + q)
  {
    hide Units, Utf16, Text, Render, Escape, MatchAt, NoPlaceholder;
    var v := ctx[MatchAt(hole + post, classes).value.key].text;
    RenderPlainText(pre, hole + post, ctx, classes);
    RenderHole(hole, post, ctx, classes);
    assert pre + (Escape(v) + post) == pre + Escape(v) + post;
    EscapeRoundTrip(v);
    UnitsBetween(pre, Escape(v), post, p, v, q);
    TextOfUtf16(p + v + q);
  }
}
