/**
 Turning terms into JSON bindings and bindings back into terms.
 */
module RdfTerms {
  import opened Tables

  datatype Binding = Binding(kind: string, value: string, datatypeIri: Option<string>, language: Option<string>)

  /** The outcome of building a binding; some malformed strings violate a check of the code, or make it
      read behind the end of the string. */
  datatype BindingResult = Bound(binding: Binding) | CheckFailed | ReadsBehindEnd

  // ---- The code -----------------------------------------------------------------------------------------

  function LastQuote(s: string): (q: Option<nat>)
    ensures q.Some? ==> q.value < |s| && s[q.value] == '"' && forall i | q.value < i < |s| :: s[i] != '"'
    ensures q.None? ==> forall i | 0 <= i < |s| :: s[i] != '"'
  {
    if s == [] then None
    else if s[|s| - 1] == '"' then Some(|s| - 1)
    else LastQuote(s[..|s| - 1])
  }

  /** `substr(pos, count)`, where the count is cut at the end of the string. */
  function Substr(s: string, pos: nat, count: nat): string
    requires pos <= |s|
  {
    s[pos..Min(pos + count, |s|)]
  }

  /** The position before `n`, where the position before 0 wraps around to the largest one. */
  function Before(n: nat): nat {
    if n == 0 then 0xFFFF_FFFF_FFFF_FFFF else n - 1
  }

  function LiteralBinding(value: string, datatypeIri: Option<string>, language: Option<string>): Binding {
    Binding("literal", value, datatypeIri, language)
  }

  function StringAndTypeToBinding(s: string, xsdType: Option<string>): BindingResult {
    if xsdType.Some? then Bound(LiteralBinding(s, xsdType, None))
    else if |s| >= 1 && s[0] == '<' then Bound(Binding("uri", Substr(s, 1, if |s| >= 2 then |s| - 2 else |s|), None, None))
    else if |s| >= 2 && s[..2] == "_:" then Bound(Binding("bnode", s[2..], None, None))
    else match LastQuote(s)
      case None => Bound(LiteralBinding(s, None, None))
      case Some(q) =>
        var value := Substr(s, 1, Before(q));
        if q + 1 < |s| && s[q + 1] == '@' then Bound(LiteralBinding(value, None, Some(s[q + 2..])))
        else if |s| < 2 then ReadsBehindEnd
        else if q + 2 < |s| && s[q + 1] == '^' then
          if s[q + 2] != '^' || |s| < q + 5 then CheckFailed
          else Bound(LiteralBinding(value, Some(s[q + 4..|s| - 1]), None))
        else Bound(LiteralBinding(value, None, None))
  }

  function ExtractValue(b: Binding): string {
    if b.kind == "uri" then "<" + b.value + ">"
    else if b.kind == "literal" then
      "\"" + b.value + "\"" + (match b.datatypeIri
                               case Some(d) => "^^<" + d + ">"
                               case None => match b.language
                                            case Some(l) => "@" + l
                                            case None => "")
    else if b.kind == "bnode" then "_:" + b.value
    else b.value
  }

  // ---- Terms --------------------------------------------------------------------------------------------

  datatype Term =
    | IriTerm(iri: string)
    | BlankNodeTerm(name: string)
    | PlainLiteral(content: string)
    | LanguageLiteral(content: string, language: string)
    | TypedLiteral(content: string, datatypeIri: string)

  predicate NoQuote(s: string) {
    forall i | 0 <= i < |s| :: s[i] != '"'
  }

  /** The closing quote of a literal is the last quote; the content may hold others. */
  predicate WellFormedTerm(t: Term) {
    match t
    case LanguageLiteral(_, language) => NoQuote(language)
    case TypedLiteral(_, datatypeIri) => NoQuote(datatypeIri)
    case _ => true
  }

  function Render(t: Term): string {
    match t
    case IriTerm(iri) => "<" + iri + ">"
    case BlankNodeTerm(name) => "_:" + name
    case PlainLiteral(content) => "\"" + content + "\""
    case LanguageLiteral(content, language) => "\"" + content + "\"" + "@" + language
    case TypedLiteral(content, datatypeIri) => "\"" + content + "\"" + "^^<" + datatypeIri + ">"
  }

  /** Kind, value, datatype and language of a term. */
  ghost function BindingOf(t: Term): Binding {
    match t
    case IriTerm(iri) => Binding("uri", iri, None, None)
    case BlankNodeTerm(name) => Binding("bnode", name, None, None)
    case PlainLiteral(content) => Binding("literal", content, None, None)
    case LanguageLiteral(content, language) => Binding("literal", content, None, Some(language))
    case TypedLiteral(content, datatypeIri) => Binding("literal", content, Some(datatypeIri), None)
  }

  lemma LastQuoteAt(s: string, q: nat)
    requires q < |s| && s[q] == '"' && NoQuote(s[q + 1..])
    ensures LastQuote(s) == Some(q)
  {
    forall i | q < i < |s|
      ensures s[i] != '"'
    {
      assert s[q + 1..][i - q - 1] == s[i];
    }
  }

  /** How a literal is taken apart, given where its closing quote is. */
  lemma SplitLiteral(content: string, suffix: string)
    requires NoQuote(suffix)
    ensures var s := "\"" + content + "\"" + suffix;
            && LastQuote(s) == Some(|content| + 1)
            && s[1..|content| + 1] == content
            && s[|content| + 2..] == suffix
            && s[0] == '"'
  {
    var s := "\"" + content + "\"" + suffix;
    assert s[|content| + 2..] == suffix;
    LastQuoteAt(s, |content| + 1);
  }

  /** The term has its binding, and the binding gives the term back. */
  ghost predicate Survives(t: Term) {
    StringAndTypeToBinding(Render(t), None) == Bound(BindingOf(t)) && ExtractValue(BindingOf(t)) == Render(t)
  }

  lemma IriSurvives(iri: string)
    ensures Survives(IriTerm(iri))
  {
    var s := Render(IriTerm(iri));
    assert s[1..|s| - 1] == iri;
  }

  lemma BlankNodeSurvives(name: string)
    ensures Survives(BlankNodeTerm(name))
  {
    var s := Render(BlankNodeTerm(name));
    assert s[..2] == "_:" && s[2..] == name;
  }

  lemma PlainLiteralSurvives(content: string)
    ensures Survives(PlainLiteral(content))
  {
    var s := Render(PlainLiteral(content));
    assert s == "\"" + content + "\"" + "";
    SplitLiteral(content, "");
  }

  lemma LanguageLiteralSurvives(content: string, language: string)
    requires NoQuote(language)
    ensures Survives(LanguageLiteral(content, language))
  {
    var s := Render(LanguageLiteral(content, language));
    var suffix := "@" + language;
    assert s == "\"" + content + "\"" + suffix;
    SplitLiteral(content, suffix);
    assert s[|content| + 2] == suffix[0];
    assert s[|content| + 3..] == suffix[1..] == language;
  }

  lemma TypedLiteralSurvives(content: string, datatypeIri: string)
    requires NoQuote(datatypeIri)
    ensures Survives(TypedLiteral(content, datatypeIri))
  {
    var s := Render(TypedLiteral(content, datatypeIri));
    var suffix := "^^<" + datatypeIri + ">";
    assert s == "\"" + content + "\"" + suffix;
    SplitLiteral(content, suffix);
    SplitDatatype(s, |content| + 2, datatypeIri);
    assert StringAndTypeToBinding(s, None) == Bound(LiteralBinding(content, Some(datatypeIri), None));
  }

  lemma SplitDatatype(s: string, k: nat, datatypeIri: string)
    requires k <= |s| && s[k..] == "^^<" + datatypeIri + ">"
    ensures |s| >= k + 4 && s[k] == '^' && s[k + 1] == '^' && s[k + 3..|s| - 1] == datatypeIri
  {
    var suffix := s[k..];
    assert suffix[0] == s[k] && suffix[1] == s[k + 1];
    assert s[k + 3..|s| - 1] == suffix[3..|suffix| - 1];
  }

  /** Well-formed terms get their bindings, and survive the round trip. */
  lemma RoundTrip(t: Term)
    requires WellFormedTerm(t)
    ensures StringAndTypeToBinding(Render(t), None) == Bound(BindingOf(t))
    ensures ExtractValue(BindingOf(t)) == Render(t)
  {
    assert Survives(t) by {
      hide Render, Survives;
      match t
      case IriTerm(iri) => IriSurvives(iri);
      case BlankNodeTerm(name) => BlankNodeSurvives(name);
      case PlainLiteral(content) => PlainLiteralSurvives(content);
      case LanguageLiteral(content, language) => LanguageLiteralSurvives(content, language);
      case TypedLiteral(content, datatypeIri) => TypedLiteralSurvives(content, datatypeIri);
    }
  }

  /** Only well-formed terms do. */
  lemma RoundTripOnly(s: string) returns (t: Term)
    requires var r := StringAndTypeToBinding(s, None); r.Bound? && ExtractValue(r.binding) == s
    ensures WellFormedTerm(t) && Render(t) == s
  {
    var b := StringAndTypeToBinding(s, None).binding;
    if b.kind == "uri" {
      t := IriTerm(b.value);
    } else if b.kind == "bnode" {
      t := BlankNodeTerm(b.value);
    } else if b.datatypeIri.Some? {
      var q := LastQuote(s).value;
      t := TypedLiteral(b.value, b.datatypeIri.value);
      forall i | 0 <= i < |b.datatypeIri.value|
        ensures b.datatypeIri.value[i] != '"'
      {
        assert b.datatypeIri.value[i] == s[q + 4 + i];
      }
    } else if b.language.Some? {
      var q := LastQuote(s).value;
      t := LanguageLiteral(b.value, b.language.value);
      forall i | 0 <= i < |b.language.value|
        ensures b.language.value[i] != '"'
      {
        assert b.language.value[i] == s[q + 2 + i];
      }
    } else {
      t := PlainLiteral(b.value);
      assert s == "\"" + b.value + "\"" + "";
    }
  }

  /** The strings that survive the round trip are exactly the well-formed terms. */
  lemma RoundTripIff(s: string)
    ensures (var r := StringAndTypeToBinding(s, None); r.Bound? && ExtractValue(r.binding) == s)
       <==> exists t :: WellFormedTerm(t) && Render(t) == s
  {
    var r := StringAndTypeToBinding(s, None);
    if r.Bound? && ExtractValue(r.binding) == s {
      var t := RoundTripOnly(s);
    }
    if exists t :: WellFormedTerm(t) && Render(t) == s {
      var t :| WellFormedTerm(t) && Render(t) == s;
      RoundTrip(t);
    }
  }

  /** Behind the closing quote there is a caret, but no `^^<` with the `>` that ends it. */
  ghost predicate HasBrokenDatatype(s: string) {
    && (s != [] ==> s[0] != '<') && (|s| >= 2 ==> s[..2] != "_:")
    && exists q: nat :: EndsBehindQuote(s, q) && |s[q + 1..]| >= 2 && s[q + 1] == '^' && (s[q + 2] != '^' || |s[q + 1..]| < 4)
  }

  ghost predicate EndsBehindQuote(s: string, q: nat) {
    q < |s| && s[q] == '"' && NoQuote(s[q + 1..])
  }

  /** Exactly these strings have no binding: a single quote, and those with a broken datatype. */
  lemma NoBindingIff(s: string)
    ensures StringAndTypeToBinding(s, None) == ReadsBehindEnd <==> s == "\""
    ensures StringAndTypeToBinding(s, None) == CheckFailed <==> HasBrokenDatatype(s)
  {
    forall q: nat
      ensures EndsBehindQuote(s, q) <==> LastQuote(s) == Some(q)
    {
      LastQuoteIff(s, q);
    }
    var last := LastQuote(s);
    if last.Some? {
      var q := last.value;
      assert q < |s| && s[q] == '"' && |s[q + 1..]| == |s| - q - 1;
      assert EndsBehindQuote(s, q);
    }
    hide EndsBehindQuote, LastQuote;
  }

  lemma LastQuoteIff(s: string, q: nat)
    ensures EndsBehindQuote(s, q) <==> LastQuote(s) == Some(q)
  {
    if EndsBehindQuote(s, q) {
      LastQuoteAt(s, q);
    }
  }

  /** A typed literal whose datatype contains a quote comes back as an untyped literal. */
  lemma QuoteInDatatypeExample()
    ensures var s := Render(TypedLiteral("x", "a\"b"));
            && StringAndTypeToBinding(s, None) == Bound(LiteralBinding("x\"^^<a", None, None))
            && ExtractValue(LiteralBinding("x\"^^<a", None, None)) != s
  {
    var s := Render(TypedLiteral("x", "a\"b"));
    assert s == "\"x\"^^<a\"b>";
    assert s[8..] == "b>";
    LastQuoteAt(s, 7);
  }

  /** Encoded values come back as literals with their datatype. */
  lemma EncodedValue(v: string, datatypeIri: string)
    ensures StringAndTypeToBinding(v, Some(datatypeIri)) == Bound(BindingOf(TypedLiteral(v, datatypeIri)))
    ensures ExtractValue(BindingOf(TypedLiteral(v, datatypeIri))) == Render(TypedLiteral(v, datatypeIri))
  {
    assert "\"" + v + "\"" + ("^^<" + datatypeIri + ">") == "\"" + v + "\"" + "^^<" + datatypeIri + ">";
  }
}
