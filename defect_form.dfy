/** The checks the "Submit A Defect" form runs before anything is written
    (`validate_inputs`) and the way their messages are shown. */
module DefectForm {
  import opened Text

  /** The first two entries of the product drop-down. */
  const NoProduct: string := "No Product"
  const AddNewProduct: string := "Add New Product"

  /** The values the form hands to `validate_inputs`, in cents for the unit
      cost.  `newCategory` is the new product name after `str.title()`. */
  datatype Form = Form(
    option: string,
    newCategory: string,
    doNumber: string,
    quantity: int,
    costCents: int,
    defectType: string,
    description: string,
    action: string,
    submitter: string,
    checkbox: bool)

  /** One rule violation; `Message` gives the text the page shows. */
  datatype Violation =
    | ProductRequired
    | ProductOrNewName
    | NewProductExists
    | NewProductInvalid
    | NewProductNoAlnum
    | DoNumberRequired
    | DoNumberNoAlnum
    | QuantityAndCostInvalid
    | QuantityInvalid
    | CostInvalid
    | BothDescriptionsRequired
    | BothDescriptionsNoAlnum
    | DescriptionRequired
    | DescriptionNoAlnum
    | ActionRequired
    | ActionNoAlnum
    | SubmitterRequired
    | SubmitterNoAlnum
    | CheckboxRequired

  function Message(v: Violation): string {
    match v
    case ProductRequired => "Select a product is required."
    case ProductOrNewName => "Either select a product or enter a new product name."
    case NewProductExists => "New product name entered already exists."
    case NewProductInvalid => "New product name is invalid."
    case NewProductNoAlnum => "New product name cannot have no letters or numbers."
    case DoNumberRequired => "DO number is required."
    case DoNumberNoAlnum => "DO Number cannot have no letters or numbers."
    case QuantityAndCostInvalid => "Invalid quantity of defective products and unit cost."
    case QuantityInvalid => "Invalid quantity of defective products."
    case CostInvalid => "Invalid unit cost."
    case BothDescriptionsRequired => "Descriptions of defect(s) and action(s) taken are required."
    case BothDescriptionsNoAlnum => "Descriptions of defect(s) and action(s) taken cannot have no letters or numbers."
    case DescriptionRequired => "Description of defect(s) is required."
    case DescriptionNoAlnum => "Description of defect(s) cannot have no letters or numbers."
    case ActionRequired => "Description of action(s) taken is required."
    case ActionNoAlnum => "Description of action(s) taken cannot have no letters or numbers."
    case SubmitterRequired => "Submitter is required."
    case SubmitterNoAlnum => "Submitter cannot have no letters or numbers."
    case CheckboxRequired => "Check the checkbox before submitting."
  }

  /** The rule a violation belongs to, in the order the rules run: product 0,
      DO number 1, quantity and cost 2, descriptions 3, submitter 4,
      checkbox 5. */
  function RuleOf(v: Violation): nat {
    match v
    case ProductRequired | ProductOrNewName | NewProductExists | NewProductInvalid | NewProductNoAlnum => 0
    case DoNumberRequired | DoNumberNoAlnum => 1
    case QuantityAndCostInvalid | QuantityInvalid | CostInvalid => 2
    case BothDescriptionsRequired | BothDescriptionsNoAlnum
      | DescriptionRequired | DescriptionNoAlnum | ActionRequired | ActionNoAlnum => 3
    case SubmitterRequired | SubmitterNoAlnum => 4
    case CheckboxRequired => 5
  }

  predicate AllOfRule(vs: seq<Violation>, k: nat) {
    forall i | 0 <= i < |vs| :: RuleOf(vs[i]) == k
  }

  /** `new_category.lower() in [category.lower() for category in existing_categories]` */
  predicate NameTaken(name: string, categories: seq<string>) {
    exists i | 0 <= i < |categories| :: AsciiLower(categories[i]) == AsciiLower(name)
  }

  // ---------------------------------------------------------------------
  // The rules, one function per independent block of `validate_inputs`
  // ---------------------------------------------------------------------

  /** The new product name checks: the first that fails reports. */
  function NewProductRule(name: string, categories: seq<string>): (vs: seq<Violation>)
    ensures |vs| <= 1 && AllOfRule(vs, 0)
  {
    if name == "" then [ProductOrNewName]
    else if NameTaken(name, categories) then [NewProductExists]
    else if AsciiLower(name) == "none" then [NewProductInvalid]
    else if !HasAlnum(name) then [NewProductNoAlnum]
    else []
  }

  function ProductRule(option: string, name: string, categories: seq<string>): (vs: seq<Violation>)
    ensures AllOfRule(vs, 0)
  {
    (if option == NoProduct then [ProductRequired] else [])
    + (if option == AddNewProduct then NewProductRule(name, categories)
       else if option == NoProduct && name != "" then [ProductOrNewName]
       else [])
  }

  function DoNumberRule(doNumber: string): (vs: seq<Violation>)
    ensures |vs| <= 1 && AllOfRule(vs, 1)
  {
    if Blank(doNumber) then [DoNumberRequired]
    else if !HasAlnumLine(doNumber) then [DoNumberNoAlnum]
    else []
  }

  function QuantityCostRule(quantity: int, costCents: int): (vs: seq<Violation>)
    ensures |vs| <= 1 && AllOfRule(vs, 2)
  {
    if quantity == 0 && costCents == 0 then [QuantityAndCostInvalid]
    else if quantity == 0 then [QuantityInvalid]
    else if costCents == 0 then [CostInvalid]
    else []
  }

  function DescriptionActionRule(description: string, action: string): (vs: seq<Violation>)
    ensures |vs| <= 2 && AllOfRule(vs, 3)
  {
    if Blank(description) && Blank(action) then [BothDescriptionsRequired]
    else if !HasAlnumLine(description) && !HasAlnumLine(action) then [BothDescriptionsNoAlnum]
    else
      (if Blank(description) then [DescriptionRequired]
       else if !HasAlnumLine(description) then [DescriptionNoAlnum]
       else [])
      + (if Blank(action) then [ActionRequired]
         else if !HasAlnumLine(action) then [ActionNoAlnum]
         else [])
  }

  function SubmitterRule(submitter: string): (vs: seq<Violation>)
    ensures |vs| <= 1 && AllOfRule(vs, 4)
  {
    if Blank(submitter) then [SubmitterRequired]
    else if !HasAlnumLine(submitter) then [SubmitterNoAlnum]
    else []
  }

  function CheckboxRule(checkbox: bool): (vs: seq<Violation>)
    ensures |vs| <= 1 && AllOfRule(vs, 5)
  {
    if checkbox then [] else [CheckboxRequired]
  }

  /** Every violation of the form, block after block. */
  function Violations(f: Form, categories: seq<string>): seq<Violation> {
    ProductRule(f.option, f.newCategory, categories)
    + DoNumberRule(f.doNumber)
    + QuantityCostRule(f.quantity, f.costCents)
    + DescriptionActionRule(f.description, f.action)
    + SubmitterRule(f.submitter)
    + CheckboxRule(f.checkbox)
  }

  /** The message texts of a list of violations, in order. */
  function Messages(vs: seq<Violation>): seq<string> {
    seq(|vs|, i requires 0 <= i < |vs| => Message(vs[i]))
  }

  lemma MessagesAppend(a: seq<Violation>, b: seq<Violation>)
    ensures Messages(a + b) == Messages(a) + Messages(b)
  {
  }

  /** `validate_inputs`: appends one message per failed check, in the
      source's order, to an initially empty list. */
  method ValidateInputs(f: Form, categories: seq<string>) returns (errors: seq<string>)
    ensures errors == Messages(Violations(f, categories))
  {
    var p, d, q := ProductRule(f.option, f.newCategory, categories), DoNumberRule(f.doNumber), QuantityCostRule(f.quantity, f.costCents);
    var t, s, c := DescriptionActionRule(f.description, f.action), SubmitterRule(f.submitter), CheckboxRule(f.checkbox);
    errors := [];
    errors := CheckProduct(errors, f.option, f.newCategory, categories);
    assert errors == Messages(p);
    errors := CheckDoNumber(errors, f.doNumber);
    MessagesAppend(p, d);
    errors := CheckQuantityCost(errors, f.quantity, f.costCents);
    MessagesAppend(p + d, q);
    errors := CheckDescriptionAction(errors, f.description, f.action);
    MessagesAppend(p + d + q, t);
    errors := CheckSubmitter(errors, f.submitter);
    MessagesAppend(p + d + q + t, s);
    if !f.checkbox {
      errors := errors + [Message(CheckboxRequired)];
    }
    MessagesAppend(p + d + q + t + s, c);
  }

  // The `Check…` methods are `validate_inputs` as the page runs it: chains
  // of `if`/`elif` tests that append to `errors`.  The `…Rule` functions
  // above state each group's outcome as a value, which the lemmas about the
  // whole form use; each method is proved to append exactly its rule's
  // messages.

  method CheckProduct(errors: seq<string>, option: string, name: string, categories: seq<string>)
    returns (out: seq<string>)
    ensures out == errors + Messages(ProductRule(option, name, categories))
  {
    out := errors;
    if option == NoProduct {
      out := out + [Message(ProductRequired)];
    }
    var rest: seq<Violation> := [];
    if option == AddNewProduct {
      if name == "" {
        rest := [ProductOrNewName];
      } else if NameTaken(name, categories) {
        rest := [NewProductExists];
      } else if AsciiLower(name) == "none" {
        rest := [NewProductInvalid];
      } else if !HasAlnum(name) {
        rest := [NewProductNoAlnum];
      }
    } else if option == NoProduct && name != "" {
      rest := [ProductOrNewName];
    }
    out := out + Messages(rest);
    MessagesAppend(if option == NoProduct then [ProductRequired] else [], rest);
  }

  method CheckDoNumber(errors: seq<string>, doNumber: string) returns (out: seq<string>)
    ensures out == errors + Messages(DoNumberRule(doNumber))
  {
    out := errors;
    if Blank(doNumber) {
      out := out + [Message(DoNumberRequired)];
    } else if !HasAlnumLine(doNumber) {
      out := out + [Message(DoNumberNoAlnum)];
    }
  }

  method CheckQuantityCost(errors: seq<string>, quantity: int, costCents: int) returns (out: seq<string>)
    ensures out == errors + Messages(QuantityCostRule(quantity, costCents))
  {
    out := errors;
    if quantity == 0 && costCents == 0 {
      out := out + [Message(QuantityAndCostInvalid)];
    } else if quantity == 0 {
      out := out + [Message(QuantityInvalid)];
    } else if costCents == 0 {
      out := out + [Message(CostInvalid)];
    }
  }

  method CheckDescriptionAction(errors: seq<string>, description: string, action: string)
    returns (out: seq<string>)
    ensures out == errors + Messages(DescriptionActionRule(description, action))
  {
    out := errors;
    if Blank(description) && Blank(action) {
      out := out + [Message(BothDescriptionsRequired)];
    } else if !HasAlnumLine(description) && !HasAlnumLine(action) {
      out := out + [Message(BothDescriptionsNoAlnum)];
    } else {
      if Blank(description) {
        out := out + [Message(DescriptionRequired)];
      } else if !HasAlnumLine(description) {
        out := out + [Message(DescriptionNoAlnum)];
      }
      if Blank(action) {
        out := out + [Message(ActionRequired)];
      } else if !HasAlnumLine(action) {
        out := out + [Message(ActionNoAlnum)];
      }
    }
  }

  method CheckSubmitter(errors: seq<string>, submitter: string) returns (out: seq<string>)
    ensures out == errors + Messages(SubmitterRule(submitter))
  {
    out := errors;
    if Blank(submitter) {
      out := out + [Message(SubmitterRequired)];
    } else if !HasAlnumLine(submitter) {
      out := out + [Message(SubmitterNoAlnum)];
    }
  }

  // ---------------------------------------------------------------------
  // What the rules promise
  // ---------------------------------------------------------------------

  /** The form passes exactly when every rule holds, stated field by field. */
  predicate Acceptable(f: Form, categories: seq<string>) {
    && f.option != NoProduct
    && (f.option == AddNewProduct ==>
          && f.newCategory != ""
          && !NameTaken(f.newCategory, categories)
          && AsciiLower(f.newCategory) != "none"
          && HasAlnum(f.newCategory))
    && HasAlnumLine(f.doNumber)
    && f.quantity != 0 && f.costCents != 0
    && HasAlnumLine(f.description) && HasAlnumLine(f.action)
    && HasAlnumLine(f.submitter)
    && f.checkbox
  }

  lemma NoViolationsIffAcceptable(f: Form, categories: seq<string>)
    ensures Violations(f, categories) == [] <==> Acceptable(f, categories)
  {
    if HasAlnumLine(f.doNumber) { AlnumLineNotBlank(f.doNumber); }
    if HasAlnumLine(f.description) { AlnumLineNotBlank(f.description); }
    if HasAlnumLine(f.action) { AlnumLineNotBlank(f.action); }
    if HasAlnumLine(f.submitter) { AlnumLineNotBlank(f.submitter); }
  }

  /** The violations of rule `k`, in order. */
  function FromRule(vs: seq<Violation>, k: nat): (r: seq<Violation>)
    ensures AllOfRule(r, k)
  {
    if vs == [] then [] else (if RuleOf(vs[0]) == k then [vs[0]] else []) + FromRule(vs[1..], k)
  }

  lemma {:induction false} FromRuleConcat(a: seq<Violation>, b: seq<Violation>, k: nat)
    ensures FromRule(a + b, k) == FromRule(a, k) + FromRule(b, k)
  {
    if a == [] {
      assert a + b == b;
    } else {
      assert (a + b)[0] == a[0];
      assert (a + b)[1..] == a[1..] + b;
      FromRuleConcat(a[1..], b, k);
    }
  }

  lemma {:induction false} FromRuleOfBlock(vs: seq<Violation>, j: nat, k: nat)
    requires AllOfRule(vs, j)
    ensures FromRule(vs, k) == if j == k then vs else []
  {
    if vs != [] {
      FromRuleOfBlock(vs[1..], j, k);
    }
  }

  /** Each rule contributes its own block, and nothing else carries its number. */
  lemma ViolationsByRule(f: Form, categories: seq<string>, k: nat)
    ensures FromRule(Violations(f, categories), k) ==
      if k == 0 then ProductRule(f.option, f.newCategory, categories)
      else if k == 1 then DoNumberRule(f.doNumber)
      else if k == 2 then QuantityCostRule(f.quantity, f.costCents)
      else if k == 3 then DescriptionActionRule(f.description, f.action)
      else if k == 4 then SubmitterRule(f.submitter)
      else if k == 5 then CheckboxRule(f.checkbox)
      else []
  {
    FromRuleOfBlocks(ProductRule(f.option, f.newCategory, categories), DoNumberRule(f.doNumber),
      QuantityCostRule(f.quantity, f.costCents), DescriptionActionRule(f.description, f.action),
      SubmitterRule(f.submitter), CheckboxRule(f.checkbox), k);
  }

  /** Appending a block of rule `j` adds it to the violations of rule `j`
      and nothing to the others. */
  lemma AppendBlock(a: seq<Violation>, b: seq<Violation>, j: nat, k: nat)
    requires AllOfRule(b, j)
    ensures FromRule(a + b, k) == FromRule(a, k) + if j == k then b else []
  {
    FromRuleConcat(a, b, k);
    FromRuleOfBlock(b, j, k);
  }

  lemma FromRuleOfBlocks(p: seq<Violation>, d: seq<Violation>, q: seq<Violation>,
                         t: seq<Violation>, s: seq<Violation>, c: seq<Violation>, k: nat)
    requires AllOfRule(p, 0) && AllOfRule(d, 1) && AllOfRule(q, 2)
    requires AllOfRule(t, 3) && AllOfRule(s, 4) && AllOfRule(c, 5)
    ensures FromRule(p + d + q + t + s + c, k) ==
      if k == 0 then p else if k == 1 then d else if k == 2 then q
      else if k == 3 then t else if k == 4 then s else if k == 5 then c else []
  {
    var x1 := p + d;
    var x2 := x1 + q;
    var x3 := x2 + t;
    var x4 := x3 + s;
    FromRuleOfBlock(p, 0, k);
    AppendBlock(p, d, 1, k);
    AppendBlock(x1, q, 2, k);
    AppendBlock(x2, t, 3, k);
    AppendBlock(x3, s, 4, k);
    AppendBlock(x4, c, 5, k);
    var e: seq<Violation> := [];
    if k == 0 {
      assert FromRule(x4 + c, k) == p + e + e + e + e + e;
    } else if k == 1 {
      assert FromRule(x4 + c, k) == e + d + e + e + e + e;
    } else if k == 2 {
      assert FromRule(x4 + c, k) == e + e + q + e + e + e;
    } else if k == 3 {
      assert FromRule(x4 + c, k) == e + e + e + t + e + e;
    } else if k == 4 {
      assert FromRule(x4 + c, k) == e + e + e + e + s + e;
    } else if k == 5 {
      assert FromRule(x4 + c, k) == e + e + e + e + e + c;
    } else {
      assert FromRule(x4 + c, k) == e + e + e + e + e + e;
    }
  }

  predicate InRuleOrder(vs: seq<Violation>) {
    forall i, j | 0 <= i < j < |vs| :: RuleOf(vs[i]) <= RuleOf(vs[j])
  }

  /** Messages come out in the fixed rule order: product, DO number,
      quantity and cost, descriptions, submitter, checkbox. */
  lemma ViolationsInRuleOrder(f: Form, categories: seq<string>)
    ensures InRuleOrder(Violations(f, categories))
  {
    var p, d, q := ProductRule(f.option, f.newCategory, categories), DoNumberRule(f.doNumber), QuantityCostRule(f.quantity, f.costCents);
    var t, s, c := DescriptionActionRule(f.description, f.action), SubmitterRule(f.submitter), CheckboxRule(f.checkbox);
    OrderedConcat(p, d, 0, 1);
    OrderedConcat(p + d, q, 1, 2);
    OrderedConcat(p + d + q, t, 2, 3);
    OrderedConcat(p + d + q + t, s, 3, 4);
    OrderedConcat(p + d + q + t + s, c, 4, 5);
  }

  lemma OrderedConcat(a: seq<Violation>, b: seq<Violation>, ka: nat, kb: nat)
    requires InRuleOrder(a) && (forall i | 0 <= i < |a| :: RuleOf(a[i]) <= ka)
    requires ka <= kb && AllOfRule(b, kb)
    ensures InRuleOrder(a + b) && (forall i | 0 <= i < |a + b| :: RuleOf((a + b)[i]) <= kb)
  {
  }

  /** Quantity and cost add at most one message; when both are zero it is
      the combined one, so (by `FromRuleMembership`) neither single one
      appears anywhere. */
  lemma QuantityCostMessages(f: Form, categories: seq<string>)
    ensures |FromRule(Violations(f, categories), 2)| <= 1
    ensures f.quantity == 0 && f.costCents == 0 ==>
      FromRule(Violations(f, categories), 2) == [QuantityAndCostInvalid]
  {
    ViolationsByRule(f, categories, 2);
  }

  /** A violation of rule `k` is in the list exactly when it is among the
      violations of rule `k`. */
  lemma {:induction false} FromRuleMembership(vs: seq<Violation>, k: nat)
    ensures forall v | RuleOf(v) == k :: v in vs <==> v in FromRule(vs, k)
  {
    if vs != [] {
      FromRuleMembership(vs[1..], k);
      assert vs == [vs[0]] + vs[1..];
    }
  }

  /** For "Add New Product" the name checks stop at the first failure; a name
      already in the catalogue (ignoring case) is reported as existing. */
  lemma NewProductMessages(f: Form, categories: seq<string>)
    requires f.option == AddNewProduct
    ensures |FromRule(Violations(f, categories), 0)| <= 1
    ensures f.newCategory != "" && NameTaken(f.newCategory, categories) ==>
      FromRule(Violations(f, categories), 0) == [NewProductExists]
  {
    ViolationsByRule(f, categories, 0);
  }

  /** What the description block reports, read off the block alone: two
      blank texts give the one "required" message; otherwise the one joint
      message appears exactly when neither text has a line starting with a
      letter or digit, and else each field is reported on its own, as
      "required" when blank and as "no letter or digit" when it fails the
      pattern, one message per failing field. */
  predicate DescriptionActionShape(description: string, action: string, ds: seq<Violation>) {
    && (Blank(description) && Blank(action) ==> ds == [BothDescriptionsRequired])
    && (!(Blank(description) && Blank(action)) ==>
          && (ds == [BothDescriptionsNoAlnum] <==> !HasAlnumLine(description) && !HasAlnumLine(action))
          && (HasAlnumLine(description) || HasAlnumLine(action) ==>
                && BothDescriptionsRequired !in ds && BothDescriptionsNoAlnum !in ds
                && (DescriptionRequired in ds <==> Blank(description))
                && (DescriptionNoAlnum in ds <==> !Blank(description) && !HasAlnumLine(description))
                && (ActionRequired in ds <==> Blank(action))
                && (ActionNoAlnum in ds <==> !Blank(action) && !HasAlnumLine(action))
                && |ds| == (if HasAlnumLine(description) then 0 else 1) + (if HasAlnumLine(action) then 0 else 1)))
  }

  lemma DescriptionActionRuleShape(description: string, action: string)
    ensures DescriptionActionShape(description, action, DescriptionActionRule(description, action))
  {
    var ds := DescriptionActionRule(description, action);
    if HasAlnumLine(description) { AlnumLineNotBlank(description); }
    if HasAlnumLine(action) { AlnumLineNotBlank(action); }
    if !(Blank(description) && Blank(action)) && (HasAlnumLine(description) || HasAlnumLine(action)) {
      var x := if Blank(description) then [DescriptionRequired]
               else if !HasAlnumLine(description) then [DescriptionNoAlnum] else [];
      var y := if Blank(action) then [ActionRequired]
               else if !HasAlnumLine(action) then [ActionNoAlnum] else [];
      assert ds == x + y;
      assert forall v :: v in ds <==> v in x || v in y;
      assert BothDescriptionsNoAlnum !in ds;
    }
  }

  /** The description block's messages as the page reports them, in the
      shape above. */
  lemma DescriptionActionMessages(f: Form, categories: seq<string>)
    ensures DescriptionActionShape(f.description, f.action, FromRule(Violations(f, categories), 3))
  {
    ViolationsByRule(f, categories, 3);
    DescriptionActionRuleShape(f.description, f.action);
  }

  // ---------------------------------------------------------------------
  // Showing the messages
  // ---------------------------------------------------------------------

  /** `f"{i+1}. {error}"` for each message. */
  function Numbered(errors: seq<string>): seq<string> {
    seq(|errors|, i requires 0 <= i < |errors| => NatToString(i + 1) + ". " + errors[i])
  }

  /** The text of the error box: one message as it is, several numbered
      from 1 and joined by newlines. */
  function ErrorMessage(errors: seq<string>): string
    requires |errors| >= 1
  {
    if |errors| > 1 then JoinLines(Numbered(errors)) else errors[0]
  }

  /** With several messages, line `i` of the box reads `i+1`, a full stop, a
      space and the `i`-th message; one message is shown unnumbered. */
  lemma ErrorMessageLines(errors: seq<string>)
    requires |errors| >= 1
    requires forall i | 0 <= i < |errors| :: '\n' !in errors[i]
    ensures |errors| == 1 ==> ErrorMessage(errors) == errors[0]
    ensures |errors| > 1 ==>
      var lines := SplitLines(ErrorMessage(errors));
      && |lines| == |errors|
      && forall i | 0 <= i < |errors| :: lines[i] == NatToString(i + 1) + ". " + errors[i]
  {
    if |errors| > 1 {
      var lines := Numbered(errors);
      forall i | 0 <= i < |lines| ensures '\n' !in lines[i] {
        var n := NatToString(i + 1);
        assert lines[i] == n + ". " + errors[i];
        assert forall j | 0 <= j < |n| :: IsDigit(n[j]);
      }
      SplitJoinLines(lines);
    }
  }
}
