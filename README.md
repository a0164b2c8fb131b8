# Registration form validation (cadastro) in Dafny

This project models the validation and masking core of the Angular
registration form `CadastroComponent`
(`src/app/cadastro/cadastro.component.ts`) and proves properties of it:

- **CPF checksum** (`validarCpf`): strip the non-digits, then reject any
  length other than 11 and any run of 11 equal digits. Next compare the two
  mod-11 check digits with positions 9 and 10. The weights are 10..2 over
  the first nine digits and 11..2 over the first ten, and each digit is
  `r < 2 ? 0 : 11 - r`. `CpfChecksum.ValidateCpf` keeps the source's two
  accumulating loops (`soma`, `peso`) and is proved equal to the
  specification `CpfValid`. The lemmas then describe what `CpfValid` accepts.
- **Input masks** (`maskCpf`, `maskCep`): strip the non-digits, truncate to 11
  or 8 digits, and re-insert the separators with regex replacements. Each
  replacement is modelled as JavaScript performs it: the first match only,
  tried from the leftmost start. `Masks.FindDigitRun` is the search for
  `(\d{3})(\d)`. The chains are proved equal to explicit layouts
  (`CpfLayout`, `CepLayout`). From that follow the digit, shape, idempotence
  and fixpoint properties, and the agreement with the schema's regexes.
- **Schema** (the zod `schema`): an explicit table of `(check, message)`
  rules per field, in declared order. zod's string checks do not abort, and
  the CPF refinement still runs after a failed regex. So every rule of a
  field is evaluated, and each failing rule yields one issue. The issues run
  field by field, and within a field in rule order. `.min`/`.max` compare
  JavaScript's `.length`, which counts UTF-16 code units (`Text.Utf16Length`).
  `\s` is ECMAScript's whitespace set (`Text.IsJsWhitespace`). The name class
  `À-ú` is the code-point range U+00C0..U+00FA. As written, it therefore
  accepts `×` and `÷` and rejects `û`, `ü`, `ý` and `ÿ`; the model keeps that.
  zod's e-mail check is library code that is not visible here. It is the
  parameter `isEmail: string -> bool`.
- **Error map** (`onSubmit`): `Cadastro.CadastroComponent` has the field
  `errors`. `OnSubmit` resets it to `{}` and then writes
  `errors[field] = message` for each issue in turn, so a later message for
  the same field overwrites an earlier one. The lemmas show three things.
  The map is empty exactly when the form is accepted. Its keys are exactly
  the failing fields. Each key holds the message of that field's last
  failing rule.
- **Address lookup guard** (`buscarEndereco`): the lookup runs only when the
  stripped CEP has exactly eight digits (`Cadastro.LooksUpAddress`).

`onSubmit` assigns `this.errors[field]` for every issue in turn, so when a
field fails several rules the *last* failing rule's message is the one
kept. For example, an empty `nome` fails both the length rule and the
pattern rule and ends with `Nome inválido`, not `Nome é obrigatório`
(`Cadastro.EmptyNomeMessage`).

Files: `wrappers.dfy` (Option), `text.dfy` (character classes, stripping,
UTF-16 length, fixed-width shapes), `cpf_checksum.dfy`, `schema.dfy`,
`masks.dfy`, `cadastro.dfy`.

## Model

| member | source | states |
|---|---|---|
| `Text.Digits` | src/app/cadastro/cadastro.component.ts:115 | `replace(/\D/g, '')` leaves only digits and never lengthens the string |
| `Text.DigitsConcat` | src/app/cadastro/cadastro.component.ts:115 | stripping distributes over concatenation |
| `Text.DigitsIdentity` | src/app/cadastro/cadastro.component.ts:115 | stripping leaves a string unchanged exactly when it is all digits |
| `Text.Take` | src/app/cadastro/cadastro.component.ts:68-70 | the truncation keeps exactly the first n characters of a longer string and leaves a string of at most n characters untouched |
| `Text.IsJsWhitespace` | src/app/cadastro/cadastro.component.ts:93 | `\s` is ECMAScript's WhiteSpace and LineTerminator set: TAB through CR, SP, NBSP, U+1680, U+2000..U+200A, LS, PS, U+202F, U+205F, U+3000 and ZWNBSP |
| `Text.IsDigit` | src/app/cadastro/cadastro.component.ts:72-83 | `\d`: the ten ASCII digits `0`..`9` |
| `Text.Matches` | src/app/cadastro/cadastro.component.ts:96-107 | an anchored fixed-width regex `^...$`: the string has one character per position and each position accepts its character |
| `Text.Utf16Length` | src/app/cadastro/cadastro.component.ts:91-92 | `.length` lies between the number of characters and twice that |
| `Text.Utf16LengthBmp` | src/app/cadastro/cadastro.component.ts:91-92 | on Basic Multilingual Plane text `.length` is the number of characters |
| `Text.DigitValue` | src/app/cadastro/cadastro.component.ts:124 | `parseInt` of a digit character is at most 9 |
| `CpfChecksum.WeightedSum` | src/app/cadastro/cadastro.component.ts:121-125 | the accumulator `soma`: the sum over the first n digits of each digit times its weight, the weights falling by one from `top` |
| `CpfChecksum.AllSame` | src/app/cadastro/cadastro.component.ts:119 | `/^(\d)\1{10}$/` on the stripped digits: every digit repeats the first |
| `CpfChecksum.ValidDigits` | src/app/cadastro/cadastro.component.ts:117-137 | the checks after stripping: eleven digits, not all equal, and both check digits as computed |
| `CpfChecksum.CpfValid` | src/app/cadastro/cadastro.component.ts:114-138 | `validarCpf`: the checks applied to the string with its non-digits removed |
| `CpfChecksum.CheckDigit` | src/app/cadastro/cadastro.component.ts:126 | every computed check digit lies in 0..9 |
| `CpfChecksum.ValidateCpf` | src/app/cadastro/cadastro.component.ts:114-138 | the two-loop implementation returns exactly `CpfValid(cpf)`, and false for any digit count other than 11 or any repeated-digit number |
| `CpfChecksum.WeightedSumPrefix` | src/app/cadastro/cadastro.component.ts:123-125 | the weighted sum reads only the first n digits |
| `CpfChecksum.WeightedSumConstant` | src/app/cadastro/cadastro.component.ts:131-133 | over n equal digits the sum is that digit times the sum of the weights |
| `CpfChecksum.RepdigitRemainders` | src/app/cadastro/cadastro.component.ts:126 | for a repeated digit v, both check digits come out as v |
| `CpfChecksum.RepdigitPassesCheckDigits` | src/app/cadastro/cadastro.component.ts:119 | eleven equal digits satisfy both check digits, so only the repeated-digit test rejects them |
| `CpfChecksum.Complete` | src/app/cadastro/cadastro.component.ts:121-135 | appending both computed check digits to nine digits gives eleven digits that start with those nine |
| `CpfChecksum.CompleteOfRepdigit` | src/app/cadastro/cadastro.component.ts:119 | nine equal digits complete to eleven equal digits |
| `CpfChecksum.CompleteCheckDigits` | src/app/cadastro/cadastro.component.ts:121-135 | a completed number satisfies both check-digit comparisons |
| `CpfChecksum.ValidDigitsIffComplete` | src/app/cadastro/cadastro.component.ts:117-137 | eleven digits are valid iff they equal the completion of their first nine and those nine are not all equal |
| `CpfChecksum.CompleteValid` | src/app/cadastro/cadastro.component.ts:117-137 | the completion of nine digits is valid iff those nine are not all equal |
| `CpfChecksum.AlteredCheckDigitRejected` | src/app/cadastro/cadastro.component.ts:127 | replacing either check digit of a valid number by another digit makes it invalid |
| `CpfChecksum.SeparatorIrrelevant` | src/app/cadastro/cadastro.component.ts:115 | inserting a non-digit anywhere never changes the verdict |
| `CpfChecksum.ExampleValid` | src/app/cadastro/cadastro.component.ts:121-137 | 11144477735 is valid (check digits 3 and 5) |
| `Schema.IsNameChar` | src/app/cadastro/cadastro.component.ts:93 | the class `[a-zA-ZÀ-ú\s]`: ASCII letters, U+00C0..U+00FA and `\s` |
| `Schema.NameChars` | src/app/cadastro/cadastro.component.ts:93 | `/^[a-zA-ZÀ-ú\s]+$/`: at least one character, all of them in the class |
| `Schema.Rules` | src/app/cadastro/cadastro.component.ts:88-112 | each field's checks and messages in declared order; the four address fields have none |
| `Schema.Holds` | src/app/cadastro/cadastro.component.ts:91-107 | what each kind of check accepts: `.min`/`.max` on UTF-16 length, the name pattern, a fixed shape, `validarCpf`, the e-mail check |
| `Schema.IssuesOf` | src/app/cadastro/cadastro.component.ts:88-112 | the listed fields' issues, field after field; every issue names one of the listed fields |
| `Schema.Issues` | src/app/cadastro/cadastro.component.ts:31 | `safeParse`'s issue list over the nine schema keys; every issue names one of them |
| `Schema.Accepted` | src/app/cadastro/cadastro.component.ts:31-33 | `result.success`: the parse reported no issue |
| `Schema.FieldsDistinct` | src/app/cadastro/cadastro.component.ts:88-112 | the field list `Fields`, which fixes the order of the issues, holds the nine `z.object` keys once each |
| `Schema.CpfShapeMeaning` | src/app/cadastro/cadastro.component.ts:96 | the shape `CpfShape` accepts exactly 14 characters with `.` at 3 and 7, `-` at 11 and digits elsewhere |
| `Schema.DateShapeMeaning` | src/app/cadastro/cadastro.component.ts:102 | the shape `DateShape` accepts exactly 10 characters with `-` at 4 and 7 and digits elsewhere |
| `Schema.CepShapeMeaning` | src/app/cadastro/cadastro.component.ts:107 | the shape `CepShape` accepts exactly 9 characters with `-` at 5 and digits elsewhere |
| `Schema.RuleIssues` | src/app/cadastro/cadastro.component.ts:88-112 | a field's issues all name that field, there are no more of them than rules, and there are none exactly when every rule holds |
| `Schema.RuleIssuesLast` | src/app/cadastro/cadastro.component.ts:89-107 | when some rule fails, the last issue carries the message of the last failing rule in declared order: that rule fails and every later one holds |
| `Schema.IssuesOfEmpty` | src/app/cadastro/cadastro.component.ts:88-112 | the object parse reports nothing iff no listed field reports anything |
| `Schema.FieldIssuesEmpty` | src/app/cadastro/cadastro.component.ts:89-111 | a field reports nothing iff its written-out conditions hold |
| `Schema.FieldListed` | src/app/cadastro/cadastro.component.ts:88-112 | every form field is a key of the schema |
| `Schema.AcceptedIff` | src/app/cadastro/cadastro.component.ts:88-112 | `safeParse` succeeds iff nome has length 1..150 in the name class, cpf has the `NNN.NNN.NNN-NN` shape and passes `validarCpf`, the birth date has the `NNNN-NN-NN` shape, the e-mail passes the e-mail check and has length at most 200, and cep has the `NNNNN-NNN` shape; the address fields are free |
| `Masks.InsertAfterThree` | src/app/cadastro/cadastro.component.ts:72-73 | `replace(/(\d{3})(\d)/, ...)` without `g`: the string changes exactly when it holds a run of four digits, and then the separator is inserted after the first three digits of the leftmost such run |
| `Masks.DashBeforeTail` | src/app/cadastro/cadastro.component.ts:74 | `replace(/(\d{3})(\d{1,2})$/, '$1-$2')`: the string changes exactly when it ends in four digits, and then a `-` is inserted before its last one or two characters |
| `Masks.DashAfterFive` | src/app/cadastro/cadastro.component.ts:83 | `replace(/^(\d{5})(\d)/, '$1-$2')`: the string changes exactly when it starts with six digits, and then a `-` is inserted after the fifth |
| `Masks.MaskCpf` | src/app/cadastro/cadastro.component.ts:66-75 | the string `maskCpf` writes back: strip, keep at most eleven digits, three replacements; never longer than 14 characters |
| `Masks.MaskCep` | src/app/cadastro/cadastro.component.ts:78-84 | the string `maskCep` writes back: strip, keep at most eight digits, one replacement; never longer than 9 characters |
| `Masks.FindDigitRun` | src/app/cadastro/cadastro.component.ts:72-73 | the result is the leftmost position (from the start index on) where the digit run begins, and None only when there is no such position |
| `Masks.FirstDot` | src/app/cadastro/cadastro.component.ts:72 | on a digit string the first replacement puts `.` after digit 3 iff a fourth digit exists |
| `Masks.SecondDot` | src/app/cadastro/cadastro.component.ts:73 | the second replacement skips past the first `.` and puts another after digit 6 iff a seventh exists |
| `Masks.NoDashAfterOneDot` | src/app/cadastro/cadastro.component.ts:74 | with 4 to 6 digits the tail replacement finds no match |
| `Masks.DashAfterTwoDots` | src/app/cadastro/cadastro.component.ts:74 | with 7 to 11 digits the tail replacement puts `-` after digit 9 iff a tenth exists |
| `Masks.MaskCpfIsLayout` | src/app/cadastro/cadastro.component.ts:66-75 | the regex chain yields the explicit layout: `.` after digits 3 and 6, and `-` after digit 9, each only when a further digit follows |
| `Masks.MaskCepIsLayout` | src/app/cadastro/cadastro.component.ts:78-85 | the CEP replacement yields `-` after digit 5 only when a sixth digit follows |
| `Masks.CpfLayoutDigits` | src/app/cadastro/cadastro.component.ts:71-74 | the separators add no digit: the layout's digits are its input |
| `Masks.CpfLayoutShape` | src/app/cadastro/cadastro.component.ts:96 | the layout matches `^\d{3}\.\d{3}\.\d{3}-\d{2}$` iff it holds eleven digits |
| `Masks.ShapedCpfIsLayout` | src/app/cadastro/cadastro.component.ts:96 | a string of that shape has eleven digits and is their layout |
| `Masks.MaskCpfDigits` | src/app/cadastro/cadastro.component.ts:67-75 | the masked value's digits are exactly the first min(11, n) digits typed |
| `Masks.MaskCpfShape` | src/app/cadastro/cadastro.component.ts:67-75 | the masked value matches the schema's CPF shape iff at least eleven digits were typed |
| `Masks.MaskCpfIdempotent` | src/app/cadastro/cadastro.component.ts:66-75 | masking a masked value changes nothing |
| `Masks.MaskCpfFixesShaped` | src/app/cadastro/cadastro.component.ts:66-75 | a value already in the CPF shape is left as it is |
| `Masks.MaskCpfKeepsVerdict` | src/app/cadastro/cadastro.component.ts:114-115 | with at most eleven digits typed, masking never changes the `validarCpf` verdict |
| `Masks.MaskedCpfPassesSchema` | src/app/cadastro/cadastro.component.ts:94-99 | the masked value passes both cpf rules iff at least eleven digits were typed and the first eleven are a valid CPF |
| `Masks.CepLayoutDigits` | src/app/cadastro/cadastro.component.ts:83 | the CEP layout's digits are its input |
| `Masks.CepLayoutShape` | src/app/cadastro/cadastro.component.ts:107 | the CEP layout matches `^\d{5}-\d{3}$` iff it holds eight digits |
| `Masks.ShapedCepIsLayout` | src/app/cadastro/cadastro.component.ts:107 | a string of that shape has eight digits and is their layout |
| `Masks.MaskCepDigits` | src/app/cadastro/cadastro.component.ts:79-84 | the masked CEP's digits are exactly the first min(8, n) digits typed |
| `Masks.MaskCepShape` | src/app/cadastro/cadastro.component.ts:79-84 | the masked CEP matches the schema's CEP shape iff at least eight digits were typed |
| `Masks.MaskCepIdempotent` | src/app/cadastro/cadastro.component.ts:78-85 | masking a masked CEP changes nothing |
| `Masks.MaskCepFixesShaped` | src/app/cadastro/cadastro.component.ts:78-85 | a value already in the CEP shape is left as it is |
| `Masks.ExampleCpfMask` | src/app/cadastro/cadastro.component.ts:66-75 | typing 11144477735 shows 111.444.777-35 |
| `Masks.ExampleCpfValid` | src/app/cadastro/cadastro.component.ts:114-138 | the masked 111.444.777-35 passes `validarCpf` |
| `Masks.ExampleCep` | src/app/cadastro/cadastro.component.ts:78-85 | typing 01310930 shows 01310-930 |
| `Cadastro.BuildErrors` | src/app/cadastro/cadastro.component.ts:37-41 | the map left by starting from `{}` and assigning `errors[field] = message` for each issue in order |
| `Cadastro.ErrorMap` | src/app/cadastro/cadastro.component.ts:37-41 | the map `onSubmit` leaves: `BuildErrors` of this parse's issues |
| `Cadastro.BuildErrorsKeys` | src/app/cadastro/cadastro.component.ts:37-41 | the error map's keys are exactly the fields some issue names |
| `Cadastro.BuildErrorsLastWins` | src/app/cadastro/cadastro.component.ts:38-41 | a field holds the message of the last issue that names it |
| `Cadastro.BuildErrorsConcat` | src/app/cadastro/cadastro.component.ts:38-41 | the writes for a later run of issues override those of an earlier run |
| `Cadastro.BuildErrorsOneField` | src/app/cadastro/cadastro.component.ts:38-41 | the issues of a single field leave one entry, holding its last message |
| `Cadastro.ErrorsOfFields` | src/app/cadastro/cadastro.component.ts:31-41 | over the schema's fields, a field is a key iff it fails, and its value is its last failing rule's message |
| `Cadastro.ErrorMapSpec` | src/app/cadastro/cadastro.component.ts:29-43 | the map is empty iff the form is accepted, its keys are exactly the failing fields, and each holds that field's last failing message |
| `Cadastro.ErrorMapLastFailingRule` | src/app/cadastro/cadastro.component.ts:37-41 | a field in the map holds the message of its last failing rule in declared order: that rule fails and every later rule of the field holds |
| `Cadastro.NoErrorsIff` | src/app/cadastro/cadastro.component.ts:29-43 | `onSubmit` leaves no error iff each field meets its written-out conditions |
| `Cadastro.EmptyNomeMessage` | src/app/cadastro/cadastro.component.ts:89-93 | an empty nome fails the length and pattern rules and ends with `Nome inválido` |
| `Cadastro.CadastroComponent.constructor` | src/app/cadastro/cadastro.component.ts:13 | the error map starts empty |
| `Cadastro.CadastroComponent.OnSubmit` | src/app/cadastro/cadastro.component.ts:29-44 | the loop leaves `errors` equal to the map built from this parse's issues, with no stale entries; it is empty iff the form is accepted; its keys are the failing fields and each holds the last failing message |
| `Cadastro.LooksUpAddress` | src/app/cadastro/cadastro.component.ts:47-48 | the guard of `buscarEndereco`: the stripped CEP has exactly eight digits |
| `Cadastro.LookupAfterMask` | src/app/cadastro/cadastro.component.ts:47-48 | after masking, the lookup runs iff at least eight digits were typed |
| `Cadastro.LookupForShapedCep` | src/app/cadastro/cadastro.component.ts:48 | every CEP of the schema's shape triggers the lookup |

## Left out

- Angular plumbing (`@Component`, `FormBuilder`, `FormGroup`, lines 1-27): framework glue with no logic. `OnSubmit` takes the form's value as a parameter.
- `console.log` and `console.error`: output only.
- The write of the masked string back into `event.target.value`: a DOM side effect. The masks are functions from the raw input to the displayed string.
- `buscarEndereco`'s request to the postal-code service and the `patchValue` of the address fields: network I/O. Only the eight-digit guard is modelled. On a failed request the code only logs the error, so the error map is not touched.
- The `?.` on `cadastroForm.get('cep')`: the control always exists, so the undefined case is not modelled.
- zod's e-mail regular expression: library code that is not visible here. It is the uninterpreted parameter `isEmail`.
- zod's internal evaluation order is taken as described above (non-aborting string checks; the refinement runs after a failed regex). For cpf both rules carry the same message, so the error map does not depend on this.
- The record assembler, age calculation and local-storage persistence: they are not part of this model, because the core file contains none of them.
- Detection of a changed single digit: the model proves it only for the two check-digit positions (`CpfChecksum.AlteredCheckDigitRejected`). For the first nine positions the mod-11 scheme has collisions. One example is a change of ±1 in the first digit that moves the first remainder between 0 and 1, which leaves both check digits unchanged. So no all-inputs claim is made there.
- Lone UTF-16 surrogates: a JavaScript string may hold one, but a Dafny `string` holds Unicode scalar values, so such input is not representable. The strip, the name class and `.length` would treat such a unit as a non-digit, outside the name class, with length 1, so no stated property depends on it.
