/**
 * `CadastroComponent`: the error map that `onSubmit` rebuilds from the
 * schema's issues, and the guard of `buscarEndereco`.
 */
module Cadastro {
  import opened Text
  import opened CpfChecksum
  import opened Schema
  import opened Masks

  /** The map left by `errors[err.path[0]] = err.message` for each issue in turn, starting from `{}`. */
  function BuildErrors(issues: seq<Issue>): map<Field, string> {
    if issues == [] then map[]
    else BuildErrors(issues[..|issues| - 1])[issues[|issues| - 1].field := issues[|issues| - 1].message]
  }

  /** No issue after position k concerns the same field. */
  predicate LastFor(issues: seq<Issue>, k: nat)
    requires k < |issues|
  {
    forall j :: k < j < |issues| ==> issues[j].field != issues[k].field
  }

  /** Some issue names field f. */
  predicate Mentions(issues: seq<Issue>, f: Field) {
    exists k :: 0 <= k < |issues| && issues[k].field == f
  }

  /** The keys of the map are exactly the fields some issue names. */
  lemma {:induction false} BuildErrorsKeys(issues: seq<Issue>, f: Field)
    ensures f in BuildErrors(issues) <==> Mentions(issues, f)
  {
    if issues != [] {
      var n := |issues| - 1;
      var init := issues[..n];
      BuildErrorsKeys(init, f);
      if Mentions(init, f) {
        var k :| 0 <= k < |init| && init[k].field == f;
        assert issues[k].field == f;
      }
      if Mentions(issues, f) && issues[n].field != f {
        var k :| 0 <= k < |issues| && issues[k].field == f;
        assert init[k].field == f;
      }
    }
  }

  /** Last write wins: a field holds the message of the last issue naming it. */
  lemma {:induction false} BuildErrorsLastWins(issues: seq<Issue>, k: nat)
    requires k < |issues| && LastFor(issues, k)
    ensures issues[k].field in BuildErrors(issues) && BuildErrors(issues)[issues[k].field] == issues[k].message
  {
    var n := |issues| - 1;
    if k < n {
      var init := issues[..n];
      assert LastFor(init, k) by {
        forall j | k < j < |init|
          ensures init[j].field != init[k].field
        {
          assert issues[j].field != issues[k].field;
        }
      }
      BuildErrorsLastWins(init, k);
      assert issues[n].field != issues[k].field;
    }
  }

  lemma {:induction false} BuildErrorsConcat(a: seq<Issue>, b: seq<Issue>)
    ensures BuildErrors(a + b) == BuildErrors(a) + BuildErrors(b)
  {
    if b == [] {
      assert a + b == a;
    } else {
      var n := |b| - 1;
      assert (a + b)[..|a + b| - 1] == a + b[..n];
      BuildErrorsConcat(a, b[..n]);
    }
  }

  /** The issues of one field leave that field holding its last message. */
  lemma {:induction false} BuildErrorsOneField(issues: seq<Issue>, f: Field)
    requires issues != [] && forall k :: 0 <= k < |issues| ==> issues[k].field == f
    ensures BuildErrors(issues) == map[f := LastMessage(issues)]
  {
    var n := |issues| - 1;
    if n > 0 {
      BuildErrorsOneField(issues[..n], f);
    }
  }

  /** Appending one field's issues overrides that field only, and only when it has issues. */
  lemma AppendBlock(prefix: seq<Issue>, block: seq<Issue>, g: Field, f: Field)
    requires forall k :: 0 <= k < |block| ==> block[k].field == g
    ensures f == g && block != [] ==>
      f in BuildErrors(prefix + block) && BuildErrors(prefix + block)[f] == LastMessage(block)
    ensures !(f == g && block != []) ==>
      (f in BuildErrors(prefix + block) <==> f in BuildErrors(prefix))
      && (f in BuildErrors(prefix) ==> BuildErrors(prefix + block)[f] == BuildErrors(prefix)[f])
  {
    BuildErrorsConcat(prefix, block);
    if block == [] {
      assert BuildErrors(block) == map[];
    } else {
      BuildErrorsOneField(block, g);
    }
  }

  /** Over a list of fields, each failing field ends up holding its own last message. */
  lemma {:induction false} ErrorsOfFields(fields: seq<Field>, form: FormValues, isEmail: string -> bool, f: Field)
    ensures var e := BuildErrors(IssuesOf(fields, form, isEmail));
      (f in e <==> f in fields && FieldIssues(form, f, isEmail) != [])
      && (f in e ==> e[f] == LastMessage(FieldIssues(form, f, isEmail)))
  {
    if fields != [] {
      var init, last := fields[..|fields| - 1], fields[|fields| - 1];
      ErrorsOfFields(init, form, isEmail, f);
      var block := FieldIssues(form, last, isEmail);
      var prefix := IssuesOf(init, form, isEmail);
      assert IssuesOf(fields, form, isEmail) == prefix + block;
      AppendBlock(prefix, block, last, f);
      assert f in fields <==> f in init || f == last;
    }
  }

  /** The map `onSubmit` leaves behind. */
  function ErrorMap(form: FormValues, isEmail: string -> bool): map<Field, string> {
    BuildErrors(Issues(form, isEmail))
  }

  /**
   * The map is empty exactly when the form is accepted; otherwise its keys
   * are the failing fields and each holds the message of that field's last
   * failing rule.
   */
  lemma ErrorMapSpec(form: FormValues, isEmail: string -> bool)
    ensures ErrorMap(form, isEmail) == map[] <==> Accepted(form, isEmail)
    ensures forall f :: f in ErrorMap(form, isEmail) <==> FieldIssues(form, f, isEmail) != []
    ensures forall f :: f in ErrorMap(form, isEmail) ==>
      FieldIssues(form, f, isEmail) != [] && ErrorMap(form, isEmail)[f] == LastMessage(FieldIssues(form, f, isEmail))
  {
    IssuesOfEmpty(Fields, form, isEmail);
    forall f: Field
      ensures f in Fields
      ensures f in ErrorMap(form, isEmail) <==> FieldIssues(form, f, isEmail) != []
      ensures f in ErrorMap(form, isEmail) ==> ErrorMap(form, isEmail)[f] == LastMessage(FieldIssues(form, f, isEmail))
    {
      FieldListed(f);
      ErrorsOfFields(Fields, form, isEmail, f);
    }
  }

  /** The message a failing field keeps is that of its last failing rule, in the order the schema declares the rules. */
  lemma ErrorMapLastFailingRule(form: FormValues, isEmail: string -> bool, f: Field)
    requires f in ErrorMap(form, isEmail)
    ensures exists k :: LastFailing(Rules(f), Value(form, f), isEmail, k)
                        && ErrorMap(form, isEmail)[f] == Rules(f)[k].message
  {
    ErrorMapSpec(form, isEmail);
    RuleIssuesLast(f, Rules(f), Value(form, f), isEmail);
  }

  /** An empty name fails the length rule and the pattern rule; the pattern's message is the one kept. */
  lemma EmptyNomeMessage(form: FormValues, isEmail: string -> bool)
    requires form.nome == ""
    ensures Nome in ErrorMap(form, isEmail) && ErrorMap(form, isEmail)[Nome] == "Nome inválido"
  {
    ErrorMapSpec(form, isEmail);
    var rules := Rules(Nome);
    assert !Holds(rules[0].check, "", isEmail);
    assert Holds(rules[1].check, "", isEmail);
    assert !Holds(rules[2].check, "", isEmail);
    assert rules[1..][1..] == [rules[2]];
    assert RuleIssues(Nome, rules[1..], "", isEmail) == [Issue(Nome, "Nome inválido")];
  }

  /** onSubmit clears every error exactly when each field meets its rules. */
  lemma NoErrorsIff(form: FormValues, isEmail: string -> bool)
    ensures ErrorMap(form, isEmail) == map[] <==>
      && 1 <= Utf16Length(form.nome) <= 150 && NameChars(form.nome)
      && Matches(form.cpf, CpfShape) && CpfValid(form.cpf)
      && Matches(form.dataNascimento, DateShape)
      && isEmail(form.email) && Utf16Length(form.email) <= 200
      && Matches(form.cep, CepShape)
  {
    AcceptedIff(form, isEmail);
    ErrorMapSpec(form, isEmail);
  }

  class CadastroComponent {
    /** Field name to the message shown under it. */
    var errors: map<Field, string>

    constructor ()
      ensures errors == map[]
    {
      errors := map[];
    }

    /** `onSubmit()` on the current form value; nothing of the previous map survives. */
    method OnSubmit(form: FormValues, isEmail: string -> bool)
      modifies this
      ensures errors == ErrorMap(form, isEmail)
      ensures errors == map[] <==> Accepted(form, isEmail)
      ensures forall f :: f in errors <==> FieldIssues(form, f, isEmail) != []
      ensures forall f :: f in errors ==> FieldIssues(form, f, isEmail) != [] && errors[f] == LastMessage(FieldIssues(form, f, isEmail))
    {
      var issues := Issues(form, isEmail);
      if issues == [] {
        errors := map[];
      } else {
        errors := map[];
        for i := 0 to |issues|
          invariant errors == BuildErrors(issues[..i])
        {
          assert issues[..i + 1][..i] == issues[..i];
          errors := errors[issues[i].field := issues[i].message];
        }
        assert issues[..|issues|] == issues;
      }
      ErrorMapSpec(form, isEmail);
    }
  }

  /** `buscarEndereco` calls the postal-code service only when the stripped CEP has exactly eight digits. */
  predicate LooksUpAddress(cep: string) {
    |Digits(cep)| == 8
  }

  /** After masking, the lookup runs exactly when at least eight digits were typed. */
  lemma LookupAfterMask(raw: string)
    ensures LooksUpAddress(MaskCep(raw)) <==> |Digits(raw)| >= 8
  {
    MaskCepDigits(raw);
  }

  /** Every CEP the schema accepts triggers the lookup. */
  lemma LookupForShapedCep(s: string)
    requires Matches(s, CepShape)
    ensures LooksUpAddress(s)
  {
    ShapedCepIsLayout(s);
  }
}
