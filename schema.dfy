/**
 * The zod `schema` of the registration form as an explicit rule table.
 * Every rule of a field is evaluated (zod's string checks do not stop at
 * the first failure, and the CPF refinement still runs after a failed
 * regex); each failing rule contributes one issue, in field order and,
 * within a field, in the declared rule order.
 */
module Schema {
  import opened Text
  import opened CpfChecksum

  /** The keys of the form group, in the order the schema declares them. */
  datatype Field = Nome | Cpf | DataNascimento | Email | Cep | Logradouro | Bairro | Cidade | Estado

  const Fields: seq<Field> := [Nome, Cpf, DataNascimento, Email, Cep, Logradouro, Bairro, Cidade, Estado]

  /** `cadastroForm.value`: every control holds a string. */
  datatype FormValues = FormValues(
    nome: string, cpf: string, dataNascimento: string, email: string, cep: string,
    logradouro: string, bairro: string, cidade: string, estado: string)

  function Value(form: FormValues, f: Field): string {
    match f
    case Nome => form.nome
    case Cpf => form.cpf
    case DataNascimento => form.dataNascimento
    case Email => form.email
    case Cep => form.cep
    case Logradouro => form.logradouro
    case Bairro => form.bairro
    case Cidade => form.cidade
    case Estado => form.estado
  }

  /** `^\d{3}\.\d{3}\.\d{3}-\d{2}$` */
  const CpfShape: seq<Slot> := [AnyDigit, AnyDigit, AnyDigit, Literal('.'), AnyDigit, AnyDigit, AnyDigit,
                                Literal('.'), AnyDigit, AnyDigit, AnyDigit, Literal('-'), AnyDigit, AnyDigit]
  /** `^\d{4}-\d{2}-\d{2}$` */
  const DateShape: seq<Slot> := [AnyDigit, AnyDigit, AnyDigit, AnyDigit, Literal('-'), AnyDigit, AnyDigit,
                                 Literal('-'), AnyDigit, AnyDigit]
  /** `^\d{5}-\d{3}$` */
  const CepShape: seq<Slot> := [AnyDigit, AnyDigit, AnyDigit, AnyDigit, AnyDigit, Literal('-'),
                                AnyDigit, AnyDigit, AnyDigit]

  /** `[a-zA-ZÀ-ú\s]`: ASCII letters, U+00C0 to U+00FA (which takes in × and ÷), and `\s`. */
  predicate IsNameChar(c: char) {
    || 'a' <= c <= 'z' || 'A' <= c <= 'Z'
    || 0xC0 <= c as int <= 0xFA
    || IsJsWhitespace(c)
  }

  /** `/^[a-zA-ZÀ-ú\s]+$/`: at least one character, all of them in the class. */
  predicate NameChars(s: string) {
    |s| >= 1 && forall i :: 0 <= i < |s| ==> IsNameChar(s[i])
  }

  /** The kinds of check the schema uses; the e-mail syntax is zod's own and is a parameter. */
  datatype Check = MinLength(n: nat) | MaxLength(n: nat) | NamePattern | Shape(pattern: seq<Slot>) | CpfChecksum | EmailSyntax

  datatype Rule = Rule(check: Check, message: string)

  /** A reported problem: `err.path[0]` and `err.message`. */
  datatype Issue = Issue(field: Field, message: string)

  function Rules(f: Field): seq<Rule> {
    match f
    case Nome => [Rule(MinLength(1), "Nome é obrigatório"),
                  Rule(MaxLength(150), "Máximo de 150 caracteres"),
                  Rule(NamePattern, "Nome inválido")]
    case Cpf => [Rule(Shape(CpfShape), "CPF inválido"),
                 Rule(CpfChecksum, "CPF inválido")]
    case DataNascimento => [Rule(Shape(DateShape), "Data de nascimento inválida")]
    case Email => [Rule(EmailSyntax, "E-mail inválido"),
                   Rule(MaxLength(200), "Máximo de 200 caracteres")]
    case Cep => [Rule(Shape(CepShape), "CEP inválido")]
    case Logradouro => []
    case Bairro => []
    case Cidade => []
    case Estado => []
  }

  predicate Holds(c: Check, s: string, isEmail: string -> bool) {
    match c
    case MinLength(n) => Utf16Length(s) >= n
    case MaxLength(n) => Utf16Length(s) <= n
    case NamePattern => NameChars(s)
    case Shape(p) => Matches(s, p)
    case CpfChecksum => CpfValid(s)
    case EmailSyntax => isEmail(s)
  }

  /** The issues the rules raise for value s of field f, in rule order. */
  function RuleIssues(f: Field, rules: seq<Rule>, s: string, isEmail: string -> bool): (iss: seq<Issue>)
    ensures |iss| <= |rules|
    ensures forall k :: 0 <= k < |iss| ==> iss[k].field == f
    ensures iss == [] <==> forall k :: 0 <= k < |rules| ==> Holds(rules[k].check, s, isEmail)
  {
    if rules == [] then []
    else
      (if Holds(rules[0].check, s, isEmail) then [] else [Issue(f, rules[0].message)])
      + RuleIssues(f, rules[1..], s, isEmail)
  }

  function LastMessage(issues: seq<Issue>): string
    requires issues != []
  {
    issues[|issues| - 1].message
  }

  /** Rule k fails on s and every later rule holds: rule k is the last failing one. */
  predicate LastFailing(rules: seq<Rule>, s: string, isEmail: string -> bool, k: int) {
    && 0 <= k < |rules|
    && !Holds(rules[k].check, s, isEmail)
    && forall j :: k < j < |rules| ==> Holds(rules[j].check, s, isEmail)
  }

  /** When some rule fails, the last issue carries the message of the last failing rule in declared order. */
  lemma {:induction false} RuleIssuesLast(f: Field, rules: seq<Rule>, s: string, isEmail: string -> bool)
    requires RuleIssues(f, rules, s, isEmail) != []
    ensures exists k :: LastFailing(rules, s, isEmail, k)
                        && LastMessage(RuleIssues(f, rules, s, isEmail)) == rules[k].message
  {
    var head := if Holds(rules[0].check, s, isEmail) then [] else [Issue(f, rules[0].message)];
    var tail := RuleIssues(f, rules[1..], s, isEmail);
    assert RuleIssues(f, rules, s, isEmail) == head + tail;
    if tail != [] {
      RuleIssuesLast(f, rules[1..], s, isEmail);
      var k :| LastFailing(rules[1..], s, isEmail, k) && LastMessage(tail) == rules[1..][k].message;
      assert LastFailing(rules, s, isEmail, k + 1) by {
        forall j | k + 1 < j < |rules|
          ensures Holds(rules[j].check, s, isEmail)
        {
          assert rules[j] == rules[1..][j - 1];
        }
      }
      assert LastMessage(head + tail) == LastMessage(tail);
    } else {
      assert forall j :: 0 <= j < |rules[1..]| ==> Holds(rules[1..][j].check, s, isEmail);
      assert LastFailing(rules, s, isEmail, 0) by {
        forall j | 0 < j < |rules|
          ensures Holds(rules[j].check, s, isEmail)
        {
          assert rules[j] == rules[1..][j - 1];
        }
      }
    }
  }

  function FieldIssues(form: FormValues, f: Field, isEmail: string -> bool): seq<Issue> {
    RuleIssues(f, Rules(f), Value(form, f), isEmail)
  }

  /** The issues of the listed fields, field after field. */
  function IssuesOf(fields: seq<Field>, form: FormValues, isEmail: string -> bool): (iss: seq<Issue>)
    ensures forall k :: 0 <= k < |iss| ==> iss[k].field in fields
  {
    if fields == [] then []
    else
      var init := fields[..|fields| - 1];
      assert forall f :: f in init ==> f in fields;
      IssuesOf(init, form, isEmail) + FieldIssues(form, fields[|fields| - 1], isEmail)
  }

  /** `schema.safeParse(formValue).error.errors`, empty exactly when parsing succeeds; every issue names a schema key. */
  function Issues(form: FormValues, isEmail: string -> bool): (iss: seq<Issue>)
    ensures forall k :: 0 <= k < |iss| ==> iss[k].field in Fields
  {
    IssuesOf(Fields, form, isEmail)
  }

  predicate Accepted(form: FormValues, isEmail: string -> bool) {
    Issues(form, isEmail) == []
  }

  lemma {:induction false} IssuesOfEmpty(fields: seq<Field>, form: FormValues, isEmail: string -> bool)
    ensures IssuesOf(fields, form, isEmail) == [] <==> forall f :: f in fields ==> FieldIssues(form, f, isEmail) == []
  {
    if fields != [] {
      var init, last := fields[..|fields| - 1], fields[|fields| - 1];
      IssuesOfEmpty(init, form, isEmail);
      assert forall f :: f in fields <==> f in init || f == last;
      var a, b := IssuesOf(init, form, isEmail), FieldIssues(form, last, isEmail);
      assert IssuesOf(fields, form, isEmail) == a + b;
      assert a + b == [] <==> a == [] && b == [];
    }
  }

  /** The conditions a field's rules impose, written out. */
  predicate FieldOk(form: FormValues, f: Field, isEmail: string -> bool) {
    match f
    case Nome => 1 <= Utf16Length(form.nome) <= 150 && NameChars(form.nome)
    case Cpf => Matches(form.cpf, CpfShape) && CpfValid(form.cpf)
    case DataNascimento => Matches(form.dataNascimento, DateShape)
    case Email => isEmail(form.email) && Utf16Length(form.email) <= 200
    case Cep => Matches(form.cep, CepShape)
    case Logradouro => true
    case Bairro => true
    case Cidade => true
    case Estado => true
  }

  lemma FieldIssuesEmpty(form: FormValues, f: Field, isEmail: string -> bool)
    ensures FieldIssues(form, f, isEmail) == [] <==> FieldOk(form, f, isEmail)
  {
    var rules, s := Rules(f), Value(form, f);
    assert FieldIssues(form, f, isEmail) == [] <==> forall k :: 0 <= k < |rules| ==> Holds(rules[k].check, s, isEmail);
    match f
    case Nome =>
      assert |rules| == 3 && rules[0].check == MinLength(1) && rules[1].check == MaxLength(150) && rules[2].check == NamePattern;
    case Cpf =>
      assert |rules| == 2 && rules[0].check == Shape(CpfShape) && rules[1].check == CpfChecksum;
    case DataNascimento =>
      assert |rules| == 1 && rules[0].check == Shape(DateShape);
    case Email =>
      assert |rules| == 2 && rules[0].check == EmailSyntax && rules[1].check == MaxLength(200);
    case Cep =>
      assert |rules| == 1 && rules[0].check == Shape(CepShape);
    case _ =>
  }

  lemma FieldListed(f: Field)
    ensures f in Fields
  {
    match f
    case Nome => assert Fields[0] == f;
    case Cpf => assert Fields[1] == f;
    case DataNascimento => assert Fields[2] == f;
    case Email => assert Fields[3] == f;
    case Cep => assert Fields[4] == f;
    case Logradouro => assert Fields[5] == f;
    case Bairro => assert Fields[6] == f;
    case Cidade => assert Fields[7] == f;
    case Estado => assert Fields[8] == f;
  }

  /** The schema declares each of the nine keys exactly once. */
  lemma FieldsDistinct()
    ensures |Fields| == 9
    ensures forall i, j :: 0 <= i < j < |Fields| ==> Fields[i] != Fields[j]
  {
  }

  /** `^\d{3}\.\d{3}\.\d{3}-\d{2}$` spelled out: 14 characters, `.` at 3 and 7, `-` at 11, digits elsewhere. */
  lemma CpfShapeMeaning(s: string)
    ensures Matches(s, CpfShape) <==>
      |s| == 14 && s[3] == '.' && s[7] == '.' && s[11] == '-'
      && forall i :: 0 <= i < 14 && i != 3 && i != 7 && i != 11 ==> IsDigit(s[i])
  {
  }

  /** `^\d{4}-\d{2}-\d{2}$` spelled out: 10 characters, `-` at 4 and 7, digits elsewhere. */
  lemma DateShapeMeaning(s: string)
    ensures Matches(s, DateShape) <==>
      |s| == 10 && s[4] == '-' && s[7] == '-'
      && forall i :: 0 <= i < 10 && i != 4 && i != 7 ==> IsDigit(s[i])
  {
  }

  /** `^\d{5}-\d{3}$` spelled out: 9 characters, `-` at 5, digits elsewhere. */
  lemma CepShapeMeaning(s: string)
    ensures Matches(s, CepShape) <==>
      |s| == 9 && s[5] == '-' && forall i :: 0 <= i < 9 && i != 5 ==> IsDigit(s[i])
  {
  }

  /** safeParse succeeds exactly when every field passes all of its rules. */
  lemma AcceptedIff(form: FormValues, isEmail: string -> bool)
    ensures Accepted(form, isEmail) <==>
      && 1 <= Utf16Length(form.nome) <= 150 && NameChars(form.nome)
      && Matches(form.cpf, CpfShape) && CpfValid(form.cpf)
      && Matches(form.dataNascimento, DateShape)
      && isEmail(form.email) && Utf16Length(form.email) <= 200
      && Matches(form.cep, CepShape)
  {
    IssuesOfEmpty(Fields, form, isEmail);
    forall f: Field
      ensures f in Fields
      ensures FieldIssues(form, f, isEmail) == [] <==> FieldOk(form, f, isEmail)
    {
      FieldListed(f);
      FieldIssuesEmpty(form, f, isEmail);
    }
    assert Accepted(form, isEmail) <==> forall f: Field :: FieldOk(form, f, isEmail);
    assert Accepted(form, isEmail) ==>
      FieldOk(form, Nome, isEmail) && FieldOk(form, Cpf, isEmail) && FieldOk(form, DataNascimento, isEmail)
      && FieldOk(form, Email, isEmail) && FieldOk(form, Cep, isEmail);
  }
}
