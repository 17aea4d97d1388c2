/** The validateProduct middleware: four independent rules over a create/update
    body, every broken rule contributing its message, in a fixed order. */
module Validation {
  import opened JsText
  import opened Catalog

  datatype Rule = NameRule | PriceRule | CategoryRule | InStockRule

  /** The order in which the middleware checks the rules. */
  const RuleOrder: seq<Rule> := [NameRule, PriceRule, CategoryRule, InStockRule]

  const NameMessage := "Name is required and must be a non-empty string"
  const PriceMessage := "Price is required and must be a non-negative number"
  const CategoryMessage := "Category is required and must be a non-empty string"
  const InStockMessage := "inStock must be a boolean value"

  function Message(r: Rule): string
  {
    match r
    case NameRule => NameMessage
    case PriceRule => PriceMessage
    case CategoryRule => CategoryMessage
    case InStockRule => InStockMessage
  }

  /** A string that is not empty once trimmed (`!v || typeof v !== 'string' ||
      v.trim().length === 0` is false). */
  predicate NonBlankString(v: Value)
  {
    v.Str? && Trim(v.s) != ""
  }

  predicate Satisfies(r: Rule, b: Body)
  {
    match r
    case NameRule => NonBlankString(b.name)
    case PriceRule => b.price.Num? && b.price.n >= 0.0
    case CategoryRule => NonBlankString(b.category)
    case InStockRule => b.inStock.Undefined? || b.inStock.Bool?
  }

  function Messages(rs: seq<Rule>): (ms: seq<string>)
    ensures |ms| == |rs|
    ensures forall k :: 0 <= k < |rs| ==> ms[k] == Message(rs[k])
  {
    seq(|rs|, k requires 0 <= k < |rs| => Message(rs[k]))
  }

  /** What one check contributes to the error list: its message when the body
      breaks its rule, nothing otherwise. */
  function Report(r: Rule, b: Body): seq<string>
  {
    if Satisfies(r, b) then [] else [Message(r)]
  }

  /** The `details` list the middleware reports for a body: the four checks'
      contributions in checking order. */
  function Violations(b: Body): seq<string>
  {
    Report(NameRule, b) + Report(PriceRule, b) + Report(CategoryRule, b) + Report(InStockRule, b)
  }

  /** A body that meets every rule. */
  predicate ValidBody(b: Body)
  {
    Satisfies(NameRule, b) && Satisfies(PriceRule, b) && Satisfies(CategoryRule, b) && Satisfies(InStockRule, b)
  }

  /** The rule itself when the body breaks it. */
  function Broken(r: Rule, b: Body): seq<Rule>
  {
    if Satisfies(r, b) then [] else [r]
  }

  /** The rules among `rs` that a body breaks, in the order of `rs`. */
  function BrokenAmong(rs: seq<Rule>, b: Body): seq<Rule>
  {
    if rs == [] then [] else Broken(rs[0], b) + BrokenAmong(rs[1..], b)
  }

  /** Filtering keeps exactly the broken rules of `rs`. */
  lemma {:induction false} BrokenAmongMembers(rs: seq<Rule>, b: Body, r: Rule)
    ensures r in BrokenAmong(rs, b) <==> r in rs && !Satisfies(r, b)
  {
    if rs != [] {
      BrokenAmongMembers(rs[1..], b, r);
      assert rs == [rs[0]] + rs[1..];
    }
  }

  /** The rules a body breaks, in checking order: the reference definition of
      the report. */
  function BrokenRules(b: Body): seq<Rule>
  {
    BrokenAmong(RuleOrder, b)
  }

  lemma BrokenAmongFour(rs: seq<Rule>, b: Body)
    requires |rs| == 4
    ensures BrokenAmong(rs, b) == Broken(rs[0], b) + Broken(rs[1], b) + Broken(rs[2], b) + Broken(rs[3], b)
  {
    var t1 := rs[1..];
    var t2 := t1[1..];
    var t3 := t2[1..];
    assert t1[0] == rs[1] && t2[0] == rs[2] && t3[0] == rs[3];
    assert BrokenAmong(t3[1..], b) == [];
    assert BrokenAmong(t3, b) == Broken(rs[3], b);
    assert BrokenAmong(t2, b) == Broken(rs[2], b) + Broken(rs[3], b);
    assert BrokenAmong(t1, b) == Broken(rs[1], b) + (Broken(rs[2], b) + Broken(rs[3], b));
  }

  lemma BrokenRulesUnfold(b: Body)
    ensures BrokenRules(b) == Broken(NameRule, b) + Broken(PriceRule, b) + Broken(CategoryRule, b) + Broken(InStockRule, b)
  {
    BrokenAmongFour(RuleOrder, b);
  }

  lemma MessagesAppend(x: seq<Rule>, y: seq<Rule>)
    ensures Messages(x + y) == Messages(x) + Messages(y)
  {
  }

  /** The report is the messages of exactly the broken rules, in checking order. */
  lemma ViolationsAreBrokenRules(b: Body)
    ensures Violations(b) == Messages(BrokenRules(b))
  {
    BrokenRulesUnfold(b);
    var n, p, c, i := Broken(NameRule, b), Broken(PriceRule, b), Broken(CategoryRule, b), Broken(InStockRule, b);
    MessagesAppend(n + p + c, i);
    MessagesAppend(n + p, c);
    MessagesAppend(n, p);
    assert Messages(n) == Report(NameRule, b);
    assert Messages(p) == Report(PriceRule, b);
    assert Messages(c) == Report(CategoryRule, b);
    assert Messages(i) == Report(InStockRule, b);
  }

  /** Different rules have different messages. */
  lemma MessagesDistinct(r: Rule, r2: Rule)
    ensures Message(r) == Message(r2) ==> r == r2
  {
  }

  lemma ReportHas(r: Rule, r2: Rule, b: Body)
    ensures Message(r) in Report(r2, b) <==> r == r2 && !Satisfies(r2, b)
  {
    MessagesDistinct(r, r2);
  }

  /** Each rule's message is reported exactly when the body breaks that rule. */
  lemma ViolationReportedIff(b: Body, r: Rule)
    ensures Message(r) in Violations(b) <==> !Satisfies(r, b)
  {
    ReportHas(r, NameRule, b);
    ReportHas(r, PriceRule, b);
    ReportHas(r, CategoryRule, b);
    ReportHas(r, InStockRule, b);
  }

  /** The report is empty exactly when every rule holds. */
  lemma NoViolationsIffValid(b: Body)
    ensures Violations(b) == [] <==> ValidBody(b)
    ensures ValidBody(b) <==> forall r: Rule :: Satisfies(r, b)
  {
    if Violations(b) == [] {
      assert |Report(NameRule, b)| == 0;
    }
  }

  /** What a body that passed validation offers the handlers. */
  lemma ValidBodyFields(b: Body)
    requires ValidBody(b)
    ensures b.name.Str? && Trim(b.name.s) != ""
    ensures b.price.Num? && b.price.n >= 0.0
    ensures b.category.Str? && Trim(b.category.s) != ""
    ensures b.inStock.Undefined? || b.inStock.Bool?
  {
  }

  /** validateProduct's body: check each rule in turn and push its message when
      the rule is broken. */
  method ValidateProduct(body: Body) returns (errors: seq<string>)
    ensures errors == Violations(body)
    ensures errors == [] <==> ValidBody(body)
  {
    errors := [];
    if !NonBlankString(body.name) {
      errors := errors + [NameMessage];
    }
    assert errors == Report(NameRule, body);
    if !(body.price.Num? && body.price.n >= 0.0) {
      errors := errors + [PriceMessage];
    }
    assert errors == Report(NameRule, body) + Report(PriceRule, body);
    if !NonBlankString(body.category) {
      errors := errors + [CategoryMessage];
    }
    assert errors == Report(NameRule, body) + Report(PriceRule, body) + Report(CategoryRule, body);
    if !(body.inStock.Undefined? || body.inStock.Bool?) {
      errors := errors + [InStockMessage];
    }
    NoViolationsIffValid(body);
  }
}
