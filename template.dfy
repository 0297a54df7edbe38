/**
 * The request-body template engine of background.js (`processTemplate`): a JSON value tree is
 * walked recursively and, in every string leaf, the placeholders `{{text}}`, `{{title}}`,
 * `{{labels}}`, `{{label}}` and `{{url}}` are replaced globally, in that order, one pass each.
 */
module Template {
  import opened Strings

  /** Numbers, booleans and null: the leaves that pass through unchanged. */
  datatype Scalar = Null | Bool(b: bool) | Number(n: real)

  /** A parsed JSON value; an object is its list of members in enumeration order. */
  datatype Json =
    | JString(s: string)
    | JArray(items: seq<Json>)
    | JObject(members: seq<(string, Json)>)
    | JScalar(scalar: Scalar)

  /** The flat record the placeholders are filled from. */
  datatype TemplateData = TemplateData(text: string, title: string, labels: string, url: string)

  /** The recognised placeholders, `Label` being the singular alias of `Labels`. */
  datatype Field = Text | Title | Labels | Label | Url

  function Token(f: Field): (t: string)
    ensures |t| > 4 && t[0] == '{' && t[1] == '{' && '{' !in t[2..]
  {
    match f
    case Text => "{{text}}"
    case Title => "{{title}}"
    case Labels => "{{labels}}"
    case Label => "{{label}}"
    case Url => "{{url}}"
  }

  /** The field a placeholder resolves to; both label spellings read `labels`. */
  function ValueOf(f: Field, d: TemplateData): string
  {
    match f
    case Text => d.text
    case Title => d.title
    case Labels => d.labels
    case Label => d.labels
    case Url => d.url
  }

  /** One `replace(/{{name}}/g, value)` pass. */
  function Pass(s: string, f: Field, d: TemplateData): string
  {
    ReplaceAll(s, Token(f), ValueOf(f, d))
  }

  /** A string leaf: the five passes, each applied to the output of the one before. */
  function Substitute(s: string, d: TemplateData): string
  {
    Pass(Pass(Pass(Pass(Pass(s, Text, d), Title, d), Labels, d), Label, d), Url, d)
  }

  /** The one key that `result[key] = …` does not turn into a member of `result`. */
  const ProtoKey: string := "__proto__"

  /**
   * The members the copy loop creates: every member of the parsed object in order, except those
   * keyed `__proto__`, where the assignment reaches the inherited prototype setter instead.
   */
  function OwnMembers(ms: seq<(string, Json)>): (r: seq<(string, Json)>)
    ensures |r| <= |ms|
    ensures forall i :: 0 <= i < |r| ==> r[i] in ms && r[i].0 != ProtoKey
    ensures forall m :: m in r <==> m in ms && m.0 != ProtoKey
    ensures (forall i :: 0 <= i < |ms| ==> ms[i].0 != ProtoKey) ==> r == ms
    decreases |ms|
  {
    if ms == [] then []
    else
      var rest := OwnMembers(ms[1..]);
      assert ms == [ms[0]] + ms[1..];
      (if ms[0].0 == ProtoKey then [] else [ms[0]]) + rest
  }

  /** The copy works member by member, so the kept members stay in their order. */
  lemma {:induction false} OwnMembersAppend(a: seq<(string, Json)>, b: seq<(string, Json)>)
    ensures OwnMembers(a + b) == OwnMembers(a) + OwnMembers(b)
    decreases |a|
  {
    if a != [] {
      assert (a + b)[0] == a[0] && (a + b)[1..] == a[1..] + b;
      OwnMembersAppend(a[1..], b);
    } else {
      assert a + b == b;
    }
  }

  /** `processTemplate(obj, data)`. */
  function ProcessTemplate(j: Json, d: TemplateData): Json
    decreases j
  {
    match j
    case JString(s) => JString(Substitute(s, d))
    case JArray(items) =>
      JArray(seq(|items|, i requires 0 <= i < |items| => ProcessTemplate(items[i], d)))
    case JObject(members) =>
      var own := OwnMembers(members);
      JObject(seq(|own|, i requires 0 <= i < |own| => (own[i].0, ProcessTemplate(own[i].1, d))))
    case JScalar(_) => j
  }

  // ---------------------------------------------------------------------------------------------
  // Shape of the result

  /**
   * Same constructor everywhere, same array lengths, same scalars, and the object keys of `a`
   * other than `__proto__` in the same order.
   */
  predicate SameShape(a: Json, b: Json)
    decreases a
  {
    match a
    case JString(_) => b.JString?
    case JArray(xs) =>
      && b.JArray? && |xs| == |b.items|
      && forall i :: 0 <= i < |xs| ==> SameShape(xs[i], b.items[i])
    case JObject(ms) =>
      var own := OwnMembers(ms);
      && b.JObject? && |own| == |b.members|
      && forall i :: 0 <= i < |own| ==> own[i].0 == b.members[i].0 && SameShape(own[i].1, b.members[i].1)
    case JScalar(_) => b == a
  }

  /**
   * Arrays keep their length, objects their keys except `__proto__`, scalars their value; only
   * string leaves change.
   */
  lemma {:induction false} ProcessTemplatePreservesShape(j: Json, d: TemplateData)
    ensures SameShape(j, ProcessTemplate(j, d))
    decreases j
  {
    match j
    case JString(_) =>
    case JArray(items) =>
      forall i | 0 <= i < |items|
        ensures SameShape(items[i], ProcessTemplate(j, d).items[i])
      {
        ProcessTemplatePreservesShape(items[i], d);
      }
    case JObject(members) =>
      var own := OwnMembers(members);
      forall i | 0 <= i < |own|
        ensures SameShape(own[i].1, ProcessTemplate(j, d).members[i].1)
      {
        ProcessTemplatePreservesShape(own[i].1, d);
      }
    case JScalar(_) =>
  }

  /** No object anywhere in `j` has a `__proto__` member. */
  ghost predicate OwnKeysOnly(j: Json)
    decreases j
  {
    match j
    case JString(_) => true
    case JArray(items) => forall i :: 0 <= i < |items| ==> OwnKeysOnly(items[i])
    case JObject(members) =>
      forall i :: 0 <= i < |members| ==> members[i].0 != ProtoKey && OwnKeysOnly(members[i].1)
    case JScalar(_) => true
  }

  /** No `__proto__` member survives processing, at any depth. */
  lemma {:induction false} ProcessTemplateOwnKeysOnly(j: Json, d: TemplateData)
    ensures OwnKeysOnly(ProcessTemplate(j, d))
    decreases j
  {
    match j
    case JString(_) =>
    case JArray(items) =>
      forall i | 0 <= i < |items|
        ensures OwnKeysOnly(ProcessTemplate(items[i], d))
      {
        ProcessTemplateOwnKeysOnly(items[i], d);
      }
    case JObject(members) =>
      var own := OwnMembers(members);
      forall i | 0 <= i < |own|
        ensures OwnKeysOnly(ProcessTemplate(own[i].1, d))
      {
        ProcessTemplateOwnKeysOnly(own[i].1, d);
      }
    case JScalar(_) =>
  }

  /** Every string leaf of `j` satisfies `p`. */
  ghost predicate EveryString(j: Json, p: string -> bool)
    decreases j
  {
    match j
    case JString(s) => p(s)
    case JArray(items) => forall i :: 0 <= i < |items| ==> EveryString(items[i], p)
    case JObject(members) => forall i :: 0 <= i < |members| ==> EveryString(members[i].1, p)
    case JScalar(_) => true
  }

  predicate NoPlaceholder(s: string)
  {
    forall f: Field :: !Contains(s, Token(f))
  }

  /** Strings without placeholders come back as they were. */
  lemma SubstituteWithoutPlaceholder(s: string, d: TemplateData)
    requires NoPlaceholder(s)
    ensures Substitute(s, d) == s
  {
    ReplaceAllAbsent(s, Token(Text), d.text);
    ReplaceAllAbsent(s, Token(Title), d.title);
    ReplaceAllAbsent(s, Token(Labels), d.labels);
    ReplaceAllAbsent(s, Token(Label), d.labels);
    ReplaceAllAbsent(s, Token(Url), d.url);
  }

  /**
   * A `__proto__` member is dropped: `{"__proto__": x, "idea": "{{text}}"}` is posted as an
   * object whose one member is the processed `idea`.
   */
  lemma ProtoMemberDropped(x: Json, k: string, v: Json, d: TemplateData)
    requires k != ProtoKey
    ensures ProcessTemplate(JObject([(ProtoKey, x), (k, v)]), d) == JObject([(k, ProcessTemplate(v, d))])
  {
    var ms := [(ProtoKey, x), (k, v)];
    assert ms[1..] == [(k, v)] && ms[1..][1..] == [];
    assert OwnMembers(ms) == [(k, v)];
  }

  /** An object of two string members, neither keyed `__proto__`, is processed member by member. */
  lemma TwoStringMembers(k1: string, s1: string, k2: string, s2: string, d: TemplateData)
    requires k1 != ProtoKey && k2 != ProtoKey
    ensures ProcessTemplate(JObject([(k1, JString(s1)), (k2, JString(s2))]), d)
            == JObject([(k1, JString(Substitute(s1, d))),
                                 (k2, JString(Substitute(s2, d)))])
  {
    var members := [(k1, JString(s1)), (k2, JString(s2))];
    assert OwnMembers(members) == members;
    var body := ProcessTemplate(JObject(members), d);
    assert ProcessTemplate(members[0].1, d) == JString(Substitute(s1, d));
    assert ProcessTemplate(members[1].1, d) == JString(Substitute(s2, d));
    assert body.members[0] == (k1, JString(Substitute(s1, d)));
    assert body.members[1] == (k2, JString(Substitute(s2, d)));
  }

  /**
   * A template without placeholders is returned unchanged, whatever the data, exactly when no
   * object in it has a `__proto__` member.
   */
  lemma ProcessTemplateWithoutPlaceholders(j: Json, d: TemplateData)
    requires EveryString(j, NoPlaceholder)
    ensures ProcessTemplate(j, d) == j <==> OwnKeysOnly(j)
  {
    ProcessTemplateOwnKeysOnly(j, d);
    if OwnKeysOnly(j) {
      ProcessTemplateKeepsPlain(j, d);
    }
  }

  lemma {:induction false} ProcessTemplateKeepsPlain(j: Json, d: TemplateData)
    requires EveryString(j, NoPlaceholder) && OwnKeysOnly(j)
    ensures ProcessTemplate(j, d) == j
    decreases j
  {
    match j
    case JString(s) =>
      SubstituteWithoutPlaceholder(s, d);
    case JArray(items) =>
      forall i | 0 <= i < |items|
        ensures ProcessTemplate(items[i], d) == items[i]
      {
        ProcessTemplateKeepsPlain(items[i], d);
      }
      assert ProcessTemplate(j, d).items == items;
    case JObject(members) =>
      assert OwnMembers(members) == members;
      forall i | 0 <= i < |members|
        ensures ProcessTemplate(members[i].1, d) == members[i].1
      {
        ProcessTemplateKeepsPlain(members[i].1, d);
      }
      assert ProcessTemplate(j, d).members == members;
    case JScalar(_) =>
  }

  // ---------------------------------------------------------------------------------------------
  // Template text as literal pieces and placeholders

  /** A piece of template text: literal characters, or one placeholder. */
  datatype Segment = Lit(chars: string) | Hole(field: Field)

  /** The template text the segments spell. */
  function Render(segs: seq<Segment>): string
  {
    if segs == [] then []
    else (match segs[0] case Lit(a) => a case Hole(f) => Token(f)) + Render(segs[1..])
  }

  /** What the template text is meant to become: every placeholder replaced by its field. */
  function Expand(segs: seq<Segment>, d: TemplateData): string
  {
    if segs == [] then []
    else (match segs[0] case Lit(a) => a case Hole(f) => ValueOf(f, d)) + Expand(segs[1..], d)
  }

  predicate LiteralsLackBrace(segs: seq<Segment>)
  {
    forall i :: 0 <= i < |segs| ==> segs[i].Lit? ==> '{' !in segs[i].chars
  }

  /** Template text whose literal parts contain no `{`: every brace belongs to a placeholder. */
  ghost predicate IsTemplateText(s: string)
  {
    exists segs :: LiteralsLackBrace(segs) && Render(segs) == s
  }

  /** The segments after one pass: the holes of `f` turned into the literal `v`. */
  function Fill(segs: seq<Segment>, f: Field, v: string): (r: seq<Segment>)
    ensures |r| == |segs|
  {
    seq(|segs|, i requires 0 <= i < |segs| => if segs[i] == Hole(f) then Lit(v) else segs[i])
  }

  /** The segments after all five passes. */
  function FillAll(segs: seq<Segment>, d: TemplateData): seq<Segment>
  {
    Fill(Fill(Fill(Fill(Fill(segs, Text, d.text), Title, d.title), Labels, d.labels), Label, d.labels), Url, d.url)
  }

  /** A position inside `Token(g)` where `Token(f)` differs, for two distinct placeholders. */
  lemma TokensDiffer(f: Field, g: Field) returns (k: nat)
    requires f != g
    ensures k < |Token(f)| && k < |Token(g)| && Token(f)[k] != Token(g)[k]
  {
    if (f == Text && g == Title) || (f == Title && g == Text) {
      k := 3;
    } else if (f == Labels && g == Label) || (f == Label && g == Labels) {
      k := 7;
    } else {
      k := 2;
    }
  }

  /**
   * Text that starts with two braces, has no brace after them and differs from `tok` within its
   * own length holds no occurrence of `tok` that starts inside it.
   */
  lemma SkipOtherToken(tg: string, tok: string, k: nat, r: string, v: string)
    requires |tok| >= 2 && tok[0] == '{' && tok[1] == '{' && |tg| > 2 && '{' !in tg[2..]
    requires k < |tg| && k < |tok| && tg[k] != tok[k]
    ensures ReplaceAll(tg + r, tok, v) == tg + ReplaceAll(r, tok, v)
  {
    var s := tg + r;
    if |s| < |tok| {
      assert ReplaceAll(s, tok, v) == s;
      assert ReplaceAll(r, tok, v) == r;
    } else {
      assert s[..|tok|][k] == tg[k];
      var s1 := s[1..];
      assert ReplaceAll(s, tok, v) == [tg[0]] + ReplaceAll(s1, tok, v);
      assert s1 == tg[1..] + r;
      if |s1| < |tok| {
        assert ReplaceAll(s1, tok, v) == s1;
        assert ReplaceAll(r, tok, v) == r;
      } else {
        assert s1[..|tok|][1] == tg[2];
        assert ReplaceAll(s1, tok, v) == [tg[1]] + ReplaceAll(s1[1..], tok, v);
        assert s1[1..] == tg[2..] + r;
        ReplaceAllSkipsPrefix(tg[2..], r, tok, v);
        assert tg == [tg[0]] + [tg[1]] + tg[2..];
      }
    }
  }

  /** Another placeholder is not touched by a pass, and the pass resumes right after it. */
  lemma OtherTokenPassesThrough(g: Field, f: Field, r: string, v: string)
    requires g != f
    ensures ReplaceAll(Token(g) + r, Token(f), v) == Token(g) + ReplaceAll(r, Token(f), v)
  {
    var k := TokensDiffer(f, g);
    SkipOtherToken(Token(g), Token(f), k, r, v);
  }

  /** One pass over brace-free template text turns exactly the holes of `f` into `v`. */
  lemma {:induction false} PassOverRender(segs: seq<Segment>, f: Field, v: string)
    requires LiteralsLackBrace(segs)
    ensures ReplaceAll(Render(segs), Token(f), v) == Render(Fill(segs, f, v))
    decreases |segs|
  {
    if segs != [] {
      var rest := segs[1..];
      var r := Render(rest);
      assert Fill(segs, f, v)[1..] == Fill(rest, f, v);
      PassOverRender(rest, f, v);
      match segs[0]
      case Lit(a) =>
        ReplaceAllSkipsPrefix(a, r, Token(f), v);
      case Hole(g) =>
        if g == f {
          ReplaceAllLeading(Token(f), r, v);
        } else {
          OtherTokenPassesThrough(g, f, r, v);
        }
    }
  }

  lemma FillKeepsLiteralsBraceFree(segs: seq<Segment>, f: Field, v: string)
    requires LiteralsLackBrace(segs) && '{' !in v
    ensures LiteralsLackBrace(Fill(segs, f, v))
  {
  }

  lemma {:induction false} FillAllIsExpand(segs: seq<Segment>, d: TemplateData)
    ensures Render(FillAll(segs, d)) == Expand(segs, d)
    decreases |segs|
  {
    if segs != [] {
      assert FillAll(segs, d)[1..] == FillAll(segs[1..], d);
      FillAllIsExpand(segs[1..], d);
    }
  }

  /**
   * The substitution does what it is meant to do when no `{` can be mistaken for part of a
   * placeholder: literal text holds none, and neither do the values of the four passes whose
   * output a later pass scans. Each placeholder then becomes its field's value.
   */
  lemma SubstituteTemplateText(segs: seq<Segment>, d: TemplateData)
    requires LiteralsLackBrace(segs)
    requires FieldsLackBrace(d)
    ensures Substitute(Render(segs), d) == Expand(segs, d)
  {
    var s1 := Fill(segs, Text, d.text);
    var s2 := Fill(s1, Title, d.title);
    var s3 := Fill(s2, Labels, d.labels);
    var s4 := Fill(s3, Label, d.labels);
    PassOverRender(segs, Text, d.text);
    FillKeepsLiteralsBraceFree(segs, Text, d.text);
    PassOverRender(s1, Title, d.title);
    FillKeepsLiteralsBraceFree(s1, Title, d.title);
    PassOverRender(s2, Labels, d.labels);
    FillKeepsLiteralsBraceFree(s2, Labels, d.labels);
    PassOverRender(s3, Label, d.labels);
    FillKeepsLiteralsBraceFree(s3, Label, d.labels);
    PassOverRender(s4, Url, d.url);
    FillAllIsExpand(segs, d);
  }

  lemma {:induction false} ExpandLacksBrace(segs: seq<Segment>, d: TemplateData)
    requires LiteralsLackBrace(segs)
    requires ValuesLackBrace(d)
    ensures '{' !in Expand(segs, d)
    decreases |segs|
  {
    if segs != [] {
      ExpandLacksBrace(segs[1..], d);
    }
  }

  /** The text, title and labels values hold no `{`: no pass can then create a placeholder. */
  predicate FieldsLackBrace(d: TemplateData)
  {
    '{' !in d.text && '{' !in d.title && '{' !in d.labels
  }

  /** No value, the url included, holds a `{`. */
  predicate ValuesLackBrace(d: TemplateData)
  {
    FieldsLackBrace(d) && '{' !in d.url
  }

  /**
   * Under the same conditions every placeholder is consumed, so substituting a second time
   * changes nothing.
   */
  lemma SubstituteConsumesPlaceholders(s: string, d: TemplateData)
    requires IsTemplateText(s) && ValuesLackBrace(d)
    ensures '{' !in Substitute(s, d) && NoPlaceholder(Substitute(s, d))
    ensures Substitute(Substitute(s, d), d) == Substitute(s, d)
  {
    var segs :| LiteralsLackBrace(segs) && Render(segs) == s;
    SubstituteTemplateText(segs, d);
    ExpandLacksBrace(segs, d);
    var r := Substitute(s, d);
    forall f: Field
      ensures !Contains(r, Token(f))
    {
      LacksFirstChar(r, Token(f));
    }
    SubstituteWithoutPlaceholder(r, d);
  }

  /** The segments with every `{{label}}` spelled `{{labels}}`. */
  function PluralLabels(segs: seq<Segment>): (r: seq<Segment>)
    ensures |r| == |segs|
  {
    seq(|segs|, i requires 0 <= i < |segs| => if segs[i] == Hole(Label) then Hole(Labels) else segs[i])
  }

  lemma {:induction false} ExpandPluralLabels(segs: seq<Segment>, d: TemplateData)
    ensures Expand(PluralLabels(segs), d) == Expand(segs, d)
    decreases |segs|
  {
    if segs != [] {
      assert PluralLabels(segs)[1..] == PluralLabels(segs[1..]);
      ExpandPluralLabels(segs[1..], d);
    }
  }

  /** `{{label}}` is an alias: spelling every one of them `{{labels}}` gives the same output. */
  lemma LabelIsAliasOfLabels(segs: seq<Segment>, d: TemplateData)
    requires LiteralsLackBrace(segs)
    requires FieldsLackBrace(d)
    ensures Substitute(Render(PluralLabels(segs)), d) == Substitute(Render(segs), d)
  {
    SubstituteTemplateText(segs, d);
    SubstituteTemplateText(PluralLabels(segs), d);
    ExpandPluralLabels(segs, d);
  }

  /** The tree-level form: every placeholder in every leaf is consumed, and processing is idempotent. */
  lemma {:induction false} ProcessTemplateConsumesPlaceholders(j: Json, d: TemplateData)
    requires EveryString(j, IsTemplateText) && ValuesLackBrace(d)
    ensures EveryString(ProcessTemplate(j, d), NoPlaceholder)
    ensures ProcessTemplate(ProcessTemplate(j, d), d) == ProcessTemplate(j, d)
    decreases j
  {
    match j {
    case JString(s) =>
      SubstituteConsumesPlaceholders(s, d);
    case JArray(items) =>
      forall i | 0 <= i < |items|
        ensures EveryString(ProcessTemplate(items[i], d), NoPlaceholder)
      {
        ProcessTemplateConsumesPlaceholders(items[i], d);
      }
    case JObject(members) =>
      var own := OwnMembers(members);
      forall i | 0 <= i < |own|
        ensures EveryString(ProcessTemplate(own[i].1, d), NoPlaceholder)
      {
        var k :| 0 <= k < |members| && members[k] == own[i];
        ProcessTemplateConsumesPlaceholders(own[i].1, d);
      }
    case JScalar(_) =>
    }
    ProcessTemplateOwnKeysOnly(j, d);
    ProcessTemplateKeepsPlain(ProcessTemplate(j, d), d);
  }

  // ---------------------------------------------------------------------------------------------
  // What happens outside those conditions

  /** A value holding a later placeholder is rewritten by that later pass. */
  lemma PassesAreSequential(d: TemplateData)
    requires d.text == Token(Title) && '{' !in d.title && '{' !in d.labels
    ensures Substitute(Token(Text), d) == d.title
  {
    ReplaceAllLeading(Token(Text), [], d.text);
    assert Token(Text) + [] == Token(Text);
    assert Pass(Token(Text), Text, d) == Token(Title);
    var d' := d.(text := "");
    OtherTokenPassesThrough(Title, Text, [], "");
    assert Token(Title) + [] == Token(Title);
    assert Pass(Token(Title), Text, d') == Token(Title);
    var segs := [Hole(Title)];
    assert Render(segs) == Token(Title);
    SubstituteTemplateText(segs, d');
  }

  /** Template text with a placeholder nested inside braces of the literal text. */
  function BraceWrappedText(): string
  {
    "{{{{text}}text}}"
  }

  /**
   * Braces in the literal text can form a new placeholder around a replaced one: with every field
   * empty, `{{{{text}}text}}` becomes `{{text}}`, which still holds a placeholder, and a second
   * substitution changes it again.
   */
  lemma SubstituteNotIdempotent(d: TemplateData)
    requires d.text == "" && d.title == "" && d.labels == "" && d.url == ""
    ensures var once := Substitute(BraceWrappedText(), d);
            once == Token(Text) && Contains(once, Token(Text)) && Substitute(once, d) != once
  {
    BraceWrappedFirstPass(d);
    LaterPassesKeep(Token(Text), d);
    var segs := [Hole(Text)];
    assert Render(segs) == Token(Text);
    SubstituteTemplateText(segs, d);
    assert Expand(segs, d) == "";
  }

  /**
   * Without its brace-free condition `LabelIsAliasOfLabels` fails: with labels `{{label}}` + r,
   * the template `{{label}}` gives the labels value, but `{{labels}}` is first replaced by that
   * value and the later `{{label}}` pass then rewrites the `{{label}}` inside it.
   */
  lemma LabelAliasBroken(d: TemplateData, r: string)
    requires d.labels == Token(Label) + r && r != [] && '{' !in r
    ensures Substitute(Render([Hole(Label)]), d) == Token(Label) + r
    ensures Substitute(Render([Hole(Labels)]), d) == Token(Label) + r + r
    ensures Substitute(Render(PluralLabels([Hole(Label)])), d) != Substitute(Render([Hole(Label)]), d)
  {
    assert Render([Hole(Label)]) == Token(Label) + [] == Token(Label);
    assert Render([Hole(Labels)]) == Token(Labels) + [] == Token(Labels);
    assert PluralLabels([Hole(Label)]) == [Hole(Labels)];
    SingularLabelTemplate(d, r, Token(Label));
    PluralLabelsTemplate(d, r, Token(Label), Token(Labels));
  }

  /** `{{label}}` with labels `{{label}}` + r: only the `{{label}}` pass changes it. */
  lemma SingularLabelTemplate(d: TemplateData, r: string, l: string)
    requires l == Token(Label) && d.labels == l + r && '{' !in r
    ensures Substitute(l, d) == l + r
  {
    assert l + [] == l;
    OtherTokenPassesThrough(Label, Text, [], d.text);
    var s1 := Pass(l, Text, d);
    assert s1 == l;
    OtherTokenPassesThrough(Label, Title, [], d.title);
    var s2 := Pass(s1, Title, d);
    assert s2 == l;
    OtherTokenPassesThrough(Label, Labels, [], d.labels);
    var s3 := Pass(s2, Labels, d);
    assert s3 == l;
    ReplaceAllLeading(l, [], d.labels);
    var s4 := Pass(s3, Label, d);
    assert s4 == l + r;
    LacksFirstChar(r, Token(Url));
    ReplaceAllAbsent(r, Token(Url), d.url);
    OtherTokenPassesThrough(Label, Url, r, d.url);
  }

  /** `{{labels}}` with labels `{{label}}` + r: the `{{label}}` pass then rewrites the inserted token. */
  lemma PluralLabelsTemplate(d: TemplateData, r: string, l: string, p: string)
    requires l == Token(Label) && p == Token(Labels) && d.labels == l + r && '{' !in r
    ensures Substitute(p, d) == l + r + r
  {
    assert p + [] == p;
    OtherTokenPassesThrough(Labels, Text, [], d.text);
    var s1 := Pass(p, Text, d);
    assert s1 == p;
    OtherTokenPassesThrough(Labels, Title, [], d.title);
    var s2 := Pass(s1, Title, d);
    assert s2 == p;
    ReplaceAllLeading(p, [], d.labels);
    var s3 := Pass(s2, Labels, d);
    assert s3 == l + r;
    LacksFirstChar(r, l);
    ReplaceAllAbsent(r, l, d.labels);
    ReplaceAllLeading(l, r, d.labels);
    var s4 := Pass(s3, Label, d);
    assert s4 == l + (r + r);
    LacksFirstChar(r + r, Token(Url));
    ReplaceAllAbsent(r + r, Token(Url), d.url);
    OtherTokenPassesThrough(Label, Url, r + r, d.url);
  }

  /** The `{{text}}` pass turns `{{{{text}}text}}` into `{{text}}` when the text is empty. */
  lemma BraceWrappedFirstPass(d: TemplateData)
    requires d.text == ""
    ensures Pass(BraceWrappedText(), Text, d) == Token(Text)
  {
    var tail := "text}}";
    assert BraceWrappedText() == "{{" + Token(Text) + tail;
    assert Token(Text)[2] == 't';
    TwoBracesBeforeToken(Token(Text), tail, "");
    assert "{{" + "" + tail == Token(Text);
  }

  /** Two braces in front of a token are not part of it: the token is still replaced. */
  lemma TwoBracesBeforeToken(tok: string, tail: string, v: string)
    requires |tok| > 2 && tok[0] == '{' && tok[1] == '{' && tok[2] != '{' && '{' !in tail
    ensures ReplaceAll("{{" + tok + tail, tok, v) == "{{" + v + tail
  {
    var rest := tok + tail;
    var s1 := ['{'] + rest;
    var s := ['{'] + s1;
    assert "{{" + tok + tail == s;
    assert s[..|tok|][2] != tok[2];
    NoMatchAtFront(s, tok, v);
    assert s[1..] == s1;
    assert s1[..|tok|][1] == '{' && s1[..|tok|][2] != tok[2];
    NoMatchAtFront(s1, tok, v);
    assert s1[1..] == rest;
    ReplaceAllLeading(tok, tail, v);
    LacksFirstChar(tail, tok);
    ReplaceAllAbsent(tail, tok, v);
    assert "{{" + v + tail == ['{'] + (['{'] + (v + tail));
  }

  /** Where the token does not start at the front, the front character is kept. */
  lemma NoMatchAtFront(s: string, tok: string, v: string)
    requires tok != [] && |s| >= |tok| && s[..|tok|] != tok
    ensures ReplaceAll(s, tok, v) == [s[0]] + ReplaceAll(s[1..], tok, v)
  {
  }

  /** The four passes after the first leave the `{{text}}` token alone. */
  lemma LaterPassesKeep(t: string, d: TemplateData)
    requires t == Token(Text)
    ensures Pass(Pass(Pass(Pass(t, Title, d), Labels, d), Label, d), Url, d) == t
  {
    forall g | g != Text
      ensures Pass(t, g, d) == t
    {
      OtherTokenPassesThrough(Text, g, [], ValueOf(g, d));
      assert t + [] == t;
    }
  }
}
