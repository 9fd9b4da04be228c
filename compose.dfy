/**
 * The first half of the `/predict` handler of app.py: the request's
 * description is stripped and must not be empty, and the optional fields that
 * are present are appended as context clauses in a fixed order.
 */
module Compose {
  import opened Wrappers
  import opened Text

  /**
   * The JSON body of a `/predict` request. Every key may be missing; the page
   * sends each form field as a string.
   */
  datatype TransactionRequest = TransactionRequest(
    description: Option<string>,
    amount: Option<string>,
    senderCountry: Option<string>,
    receiverCountry: Option<string>,
    paymentMethod: Option<string>,
    merchantCategory: Option<string>)

  /** An error reply: status 400 with a message, or status 500 with a message. */
  datatype ApiError = BadRequest(message: string) | ServerError(message: string)

  const DescriptionRequired: ApiError := BadRequest("Description is required")

  /** Python truthiness of `data.get(key)` for a string value: present and non-empty. */
  predicate Present(v: Option<string>) {
    v.Some? && v.value != ""
  }

  /** `if data.get(key): context_parts.append(f"{prefix}{value}")`. */
  function AppendIfPresent(parts: seq<string>, prefix: string, v: Option<string>): seq<string> {
    if Present(v) then parts + [prefix + v.value] else parts
  }

  /** The list `context_parts`, appended to field by field as the handler does. */
  function ContextParts(req: TransactionRequest): seq<string>
  {
    var p1 := AppendIfPresent([], "Amount: $", req.amount);
    var p2 := AppendIfPresent(p1, "From: ", req.senderCountry);
    var p3 := AppendIfPresent(p2, "To: ", req.receiverCountry);
    var p4 := AppendIfPresent(p3, "Payment method: ", req.paymentMethod);
    AppendIfPresent(p4, "Category: ", req.merchantCategory)
  }

  /**
   * The classifier input: the stripped description, followed by ". " and the
   * context clauses joined with ", " when there are any. A description that is
   * missing or blank is refused with status 400.
   */
  function ComposeInput(req: TransactionRequest): (r: Result<string, ApiError>)
    ensures r.Failure? <==> AllSpace(req.description.GetOr(""))
    ensures r.Failure? ==> r.error == DescriptionRequired
  {
    StripEmptyIff(req.description.GetOr(""));
    var description := Strip(req.description.GetOr(""));
    if description == "" then Failure(DescriptionRequired)
    else
      var parts := ContextParts(req);
      Success(if parts != [] then description + ". " + Join(", ", parts) else description)
  }

  // A table-driven reference for the context clauses: the five optional
  // fields in their fixed order, and the clauses of the present ones.

  datatype Field = Field(prefix: string, value: Option<string>)

  function FieldTable(req: TransactionRequest): seq<Field> {
    [ Field("Amount: $", req.amount),
      Field("From: ", req.senderCountry),
      Field("To: ", req.receiverCountry),
      Field("Payment method: ", req.paymentMethod),
      Field("Category: ", req.merchantCategory) ]
  }

  /** The positions of the present fields of `fs`, in increasing order, and no others. */
  function PresentIndices(fs: seq<Field>): (idx: seq<nat>)
    ensures forall k :: 0 <= k < |idx| ==> idx[k] < |fs| && Present(fs[idx[k]].value)
    ensures forall k, m :: 0 <= k < m < |idx| ==> idx[k] < idx[m]
    ensures forall j :: 0 <= j < |fs| && Present(fs[j].value) ==> j in idx
  {
    if fs == [] then []
    else
      var n := |fs| - 1;
      PresentIndices(fs[..n]) + (if Present(fs[n].value) then [n] else [])
  }

  /** The clause of each present field, in table order; the value is not stripped. */
  function Clauses(fs: seq<Field>): (cs: seq<string>)
  {
    var idx := PresentIndices(fs);
    seq(|idx|, k requires 0 <= k < |idx| => fs[idx[k]].prefix + fs[idx[k]].value.value)
  }

  lemma ClausesSnoc(fs: seq<Field>, f: Field)
    ensures Clauses(fs + [f]) == AppendIfPresent(Clauses(fs), f.prefix, f.value)
  {
    assert (fs + [f])[..|fs|] == fs;
  }

  /** The handler's step-by-step list is the table-driven list of clauses. */
  lemma ContextPartsFollowTable(req: TransactionRequest)
    ensures ContextParts(req) == Clauses(FieldTable(req))
  {
    var t := FieldTable(req);
    var t1 := [t[0]];
    var t2 := t1 + [t[1]];
    var t3 := t2 + [t[2]];
    var t4 := t3 + [t[3]];
    assert Clauses([]) == [];
    ClausesSnoc([], t[0]);
    assert [] + [t[0]] == t1;
    ClausesSnoc(t1, t[1]);
    ClausesSnoc(t2, t[2]);
    ClausesSnoc(t3, t[3]);
    ClausesSnoc(t4, t[4]);
    assert t4 + [t[4]] == t;
  }

  /**
   * With a usable description, the input is exactly the stripped description
   * when no optional field is present, and otherwise the description, ". ",
   * and the clauses of the present fields in table order joined with ", ".
   */
  lemma ComposeSpec(req: TransactionRequest)
    requires !AllSpace(req.description.GetOr(""))
    ensures var description := Strip(req.description.GetOr(""));
      var clauses := Clauses(FieldTable(req));
      ComposeInput(req) == Success(if clauses == [] then description else description + ". " + Join(", ", clauses))
    ensures ComposeInput(req) == Success(Strip(req.description.GetOr(""))) <==>
      forall j :: 0 <= j < 5 ==> !Present(FieldTable(req)[j].value)
  {
    ContextPartsFollowTable(req);
    var description := Strip(req.description.GetOr(""));
    var t := FieldTable(req);
    var clauses := Clauses(t);
    if clauses != [] {
      assert |description + ". " + Join(", ", clauses)| > |description|;
      var j := PresentIndices(t)[0];
      assert Present(t[j].value);
    } else {
      assert |PresentIndices(t)| == 0;
    }
  }

  lemma StripExample()
    ensures Strip("  Pay invoice ") == "Pay invoice"
  {
    assert "  Pay invoice "[1..] == " Pay invoice ";
    assert " Pay invoice "[1..] == "Pay invoice ";
    assert TrimStart("Pay invoice ") == "Pay invoice ";
    assert TrimStart("  Pay invoice ") == "Pay invoice ";
    assert "Pay invoice "[..11] == "Pay invoice";
    assert TrimEnd("Pay invoice") == "Pay invoice";
    assert TrimEnd("Pay invoice ") == "Pay invoice";
  }

  /**
   * An amount and a sending country, with the receiving country sent empty:
   * two clauses, values kept as sent.
   */
  lemma ComposeAmountAndSender(d: string, amount: string, sender: string)
    requires !AllSpace(d) && amount != "" && sender != ""
    ensures ComposeInput(TransactionRequest(Some(d), Some(amount), Some(sender), Some(""), None, None))
         == Success(Strip(d) + ". " + ("Amount: $" + amount + ", " + "From: " + sender))
  {
    var req := TransactionRequest(Some(d), Some(amount), Some(sender), Some(""), None, None);
    var parts := ContextParts(req);
    assert parts == ["Amount: $" + amount, "From: " + sender];
    assert Join(", ", parts) == "Amount: $" + amount + ", " + "From: " + sender;
  }

  /** The example of a description with an amount and a sending country. */
  lemma ComposeExample()
    ensures ComposeInput(TransactionRequest(Some("  Pay invoice "), Some("100"), Some("US"), Some(""), None, None))
         == Success("Pay invoice. Amount: $100, From: US")
  {
    var text := "Pay invoice" + ". " + ("Amount: $" + "100" + ", " + "From: " + "US");
    assert text == "Pay invoice. Amount: $100, From: US";
    assert ComposeInput(TransactionRequest(Some("  Pay invoice "), Some("100"), Some("US"), Some(""), None, None))
        == Success(text) by {
      StripExample();
      ComposeAmountAndSender("  Pay invoice ", "100", "US");
    }
  }
}
