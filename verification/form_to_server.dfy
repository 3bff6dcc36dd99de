/** What the web form sends to the backend, and whether the backend accepts it.
    `JSON.stringify` writes NaN as `null`, so a customer id that did not parse
    arrives as a missing one. Before the validator runs, the JSON body is bound
    to the backend's record, whose `customerId` is a Java `Long`. */
module FormToServer {
  import opened Common
  import opened Strings
  import NewClaim
  import opened ClaimRequests

  /** The range of a Java `long`. */
  const LongMin: int := -0x8000_0000_0000_0000
  const LongMax: int := 0x7FFF_FFFF_FFFF_FFFF

  /** Jackson reads `customerId` into a `Long`: a number outside its range cannot
      be bound, and the request is refused with 400 before the validator runs. */
  predicate Binds(r: NewClaim.CreateClaimRequest)
  {
    r.customerId.None? || LongMin <= r.customerId.value <= LongMax
  }

  /** The JSON body of the front end's request, as the backend reads it once it
      binds: the two texts are present and the customer id is carried over. */
  function ToServer(r: NewClaim.CreateClaimRequest): (b: CreateClaimRequest)
    ensures b.title == Some(r.title) && b.description == Some(r.description)
    ensures b.customerId == r.customerId
  {
    CreateClaimRequest(Some(r.title), Some(r.description), r.customerId)
  }

  /** A form that passes the web validators sends a request that binds exactly
      when its customer id fits a `Long`, and that the backend's validator then
      accepts whenever its title and its description each hold a visible
      character. */
  lemma ValidFormAccepted(form: NewClaim.FormState, files: seq<NewClaim.FileInfo>,
                          create: NewClaim.CreateOutcome, ok: bool, i: nat, j: nat)
    requires NewClaim.FormValid(form)
    requires i < |form.title| && !IsJavaSpace(form.title[i])
    requires j < |form.description| && !IsJavaSpace(form.description[j])
    ensures var sub := NewClaim.OnSubmit(form, files, create, ok);
      && sub.request.Some?
      && (Binds(sub.request.value) <==> ParseDigits(form.customerId) <= LongMax)
      && ValidCreate(ToServer(sub.request.value))
  {
    NotBlankWhenVisible(form.title, i);
    NotBlankWhenVisible(form.description, j);
    var sub := NewClaim.OnSubmit(form, files, create, ok);
    ValidCreateIff(ToServer(sub.request.value));
  }

  /** Every customer id beyond a `Long` (9223372036854775808, nineteen digits, is
      the first) passes the web form's digits-only pattern, but the backend cannot
      bind the request it produces. */
  lemma LongOverflowPassesFormOnly(n: nat)
    requires n > LongMax
    ensures NewClaim.FieldValid(NewClaim.CustomerId, NatToString(n))
    ensures !Binds(NewClaim.CreateClaimRequest("B", "C", Some(ParseDigits(NatToString(n)))))
  {
    NewClaim.FieldValidIff(NewClaim.CustomerId, NatToString(n));
    ParseNatToString(n);
  }

  /** A title of three spaces passes the web form, which only counts characters,
      but is blank to the backend. */
  lemma SpaceTitlePassesFormOnly()
    ensures NewClaim.FormValid(NewClaim.FormState("   ", "Broken item", "42", {}))
    ensures !ValidCreate(CreateClaimRequest(Some("   "), Some("Broken item"), Some(42)))
  {
    SpaceTitleFormValid();
    SpaceTitleBackendBlank();
  }

  lemma SpaceTitleFormValid()
    ensures NewClaim.FormValid(NewClaim.FormState("   ", "Broken item", "42", {}))
  {
    SpaceTitleValid();
    BrokenItemValid();
    FortyTwoValid();
  }

  lemma SpaceTitleValid()
    ensures NewClaim.FieldValid(NewClaim.Title, "   ")
  {
    NewClaim.FieldValidIff(NewClaim.Title, "   ");
  }

  lemma BrokenItemValid()
    ensures NewClaim.FieldValid(NewClaim.Description, "Broken item")
  {
    NewClaim.FieldValidIff(NewClaim.Description, "Broken item");
  }

  lemma FortyTwoValid()
    ensures NewClaim.FieldValid(NewClaim.CustomerId, "42")
  {
    NewClaim.FieldValidIff(NewClaim.CustomerId, "42");
  }

  lemma SpaceTitleBackendBlank()
    ensures !ValidCreate(CreateClaimRequest(Some("   "), Some("Broken item"), Some(42)))
  {
    BlankIff("   ");
    ValidCreateIff(CreateClaimRequest(Some("   "), Some("Broken item"), Some(42)));
  }

  /** The other way round, a one-character title is accepted by the backend but
      not by the web form. */
  lemma OneCharacterTitleFailsFormOnly()
    ensures !NewClaim.FieldValid(NewClaim.Title, "A")
    ensures ValidCreate(CreateClaimRequest(Some("A"), Some("B"), Some(1)))
  {
    NewClaim.FieldValidIff(NewClaim.Title, "A");
    NotBlankWhenVisible("A", 0);
    NotBlankWhenVisible("B", 0);
    ValidCreateIff(CreateClaimRequest(Some("A"), Some("B"), Some(1)));
  }
}
