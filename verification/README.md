# JSON matching and test-method naming in PHPUnit

This project models two pure pieces of PHPUnit and proves properties of them.

**The `JsonMatches` constraint.** It decides whether a JSON text matches an expected JSON text:

- Both texts are decoded.
- Each decoded value is canonicalized: the members of every object are sorted by key, at every depth, and arrays keep their order.
- The two canonical forms are compared.
- A text that does not decode never matches.
- In throwing mode a mismatch raises an expectation failure. Its message is `Failed asserting that '<other>' matches JSON string "<expected>".`
- When both texts decode, the failure also carries a comparison: the two decoded values, their pretty-printed canonical forms, and the message `Failed asserting that two json values are equal.`

**The `TestMethod` value object.** It holds a test method's class, method, file, line, display names, metadata and test data. From these it builds three names:

- `id()` is `Class::method`, followed by `#` and the data set name;
- `name()` is the method name, followed by ` with data set #n` or ` with data set "name"`;
- `nameWithClass()` is `Class::` followed by `name()`.

Modules, one per file:

- `Wrappers` (`wrappers.dfy`): `Option`, and `Result` for decoding.
- `JsonValue` (`json_value.dfy`): the decoded value tree. Numbers are kept as their literal text.
- `KeyOrder` (`key_order.dfy`): the code-point order of keys, a strict total order.
- `Canonical` (`canonical.dfy`): key sorting by insertion and `Canonicalize`, with its laws.
- `Equivalence` (`equivalence.dfy`): `Equal` on trees, and `Equiv`. `Equiv` is a reference definition of "the same JSON document": objects with the same key set and equivalent values key by key, arrays equivalent element by element. The module proves that two trees canonicalize to the same tree exactly when they are equivalent.
- `Pretty` (`pretty.dfy`): the pretty printer of canonical trees, and the escaping of string literals.
- `Exporter` (`exporter.dfy`): how a failure message shows the other text.
- `Decimal` (`decimal.dfy`): decimal text of integers.
- `JsonMatchesConstraint` (`json_matches.dfy`): `toString`, `matches`, the failure text, `fail` and `evaluate`.
- `MatchingLaws` (`matching_laws.dfy`): what matching ignores and what it never ignores.
- `MatchCases` (`cases.dfy`): the rows of both data-provider tables.
- `FailureCases` (`failure_cases.dfy`): the syntax-error and diff tests.
- `TestMethods` (`test_method.dfy`): the value object and its names.
- `TestMethodCases` (`test_method_cases.dfy`): the naming tests.

Decoding is a parameter: a `Decoder` maps a text to a tree or an error. Every concrete case lemma takes any decoder that reads the texts involved into the trees written out in its precondition.

## Model

| member | source | states |
|---|---|---|
| Canonical.SortMembers | tests/unit/Framework/Constraint/JsonMatchesTest.php:163-164 | The sorted member list is ordered by key and is a permutation of the input (same multiset) |
| Canonical.Canonicalize | tests/unit/Framework/Constraint/JsonMatchesTest.php:45-46 | Canonicalizing keeps the JSON type of the value, leaves scalars unchanged, and keeps the number of array elements and of object members |
| Canonical.CanonicalizeIsCanonical | tests/unit/Framework/Constraint/JsonMatchesTest.php:45-46 | Canonicalizing leaves every object at every depth sorted by key |
| Canonical.CanonicalizeOfCanonical | tests/unit/Framework/Constraint/JsonMatchesTest.php:45-46 | A tree already in canonical form is left unchanged |
| Canonical.CanonicalizeIdempotent | tests/unit/Framework/Constraint/JsonMatchesTest.php:45-46 | Canonicalizing twice is the same as canonicalizing once |
| Canonical.SortMembersStrict | tests/unit/Framework/Constraint/JsonMatchesTest.php:163-164 | With distinct keys, the sorted list has strictly increasing keys |
| Canonical.StrictlySortedUnique | tests/unit/Framework/Constraint/JsonMatchesTest.php:163-164 | Two strictly sorted member lists with the same elements are identical, so the sort result depends only on the members present |
| Equivalence.Equal | tests/unit/Framework/Constraint/JsonMatchesTest.php:156-170 | The structural comparison is true exactly when the trees are identical, so it is type-sensitive with no coercion |
| Equivalence.EquivCanonicalizeSame | tests/unit/Framework/Constraint/JsonMatchesTest.php:163-164 | Equivalent well-formed trees have the same canonical form |
| Equivalence.CanonicalizeSameEquiv | tests/unit/Framework/Constraint/JsonMatchesTest.php:165-170 | Well-formed trees with the same canonical form are equivalent |
| Equivalence.CanonicalizeSameIffEquiv | tests/unit/Framework/Constraint/JsonMatchesTest.php:156-170 | Both directions: same canonical form if and only if equivalent |
| Equivalence.EquivReflexive | tests/unit/Framework/Constraint/JsonMatchesTest.php:156 | Every well-formed (decoded) tree is equivalent to itself |
| Equivalence.EquivSymmetric | tests/unit/Framework/Constraint/JsonMatchesTest.php:163-164 | On well-formed (decoded) trees, equivalence does not depend on the order of its arguments |
| Equivalence.EquivTransitive | tests/unit/Framework/Constraint/JsonMatchesTest.php:163-164 | Equivalence is transitive on well-formed (decoded) trees |
| Pretty.EscapeChar | tests/unit/Framework/Constraint/JsonMatchesTest.php:48-49 | A character is written as itself exactly when it is plain; otherwise it is written as a backslash escape of at most six characters, never starting with a quote |
| Pretty.Escape | tests/unit/Framework/Constraint/JsonMatchesTest.php:48-49 | The escaped string body is at least as long as the string and reads back as the original string |
| Pretty.QuoteInjective | tests/unit/Framework/Constraint/JsonMatchesTest.php:48-49 | Different strings get different literals in the printed form |
| Pretty.EscapePlain | tests/unit/Framework/Constraint/JsonMatchesTest.php:48-49 | A string of plain characters is written unchanged |
| Pretty.Prettify | tests/unit/Framework/Constraint/JsonMatchesTest.php:108-117 | An empty object prints as `{}` and an empty array as `[]` |
| Exporter.ReplaceAbsent | tests/unit/Framework/Constraint/JsonMatchesTest.php:62-97 | Replacing a search string that does not occur changes nothing |
| Exporter.Export | tests/unit/Framework/Constraint/JsonMatchesTest.php:62-97 | A string with binary control characters is shown as `Binary String: 0x` and the hex of its whole UTF-8 encoding, which reads back as those bytes; a printable string without carriage returns or `<lf>` is shown between single quotes with every line feed written as `\n` followed by a real line break and every other character kept |
| Exporter.HexOfTextBytes | tests/unit/Framework/Constraint/JsonMatchesTest.php:62-97 | Hex written character by character equals the hex of the whole UTF-8 byte string |
| Exporter.ShowLineBreaksWithoutCarriageReturn | tests/unit/Framework/Constraint/JsonMatchesTest.php:62-97 | For every string without carriage returns or `<lf>`, the chain of replacements escapes each line feed and keeps it, and leaves every other character alone |
| Exporter.HexBytesRoundTrip | tests/unit/Framework/Constraint/JsonMatchesTest.php:62-97 | The hex digits of a byte sequence read back as the same bytes, so the binary form loses nothing |
| Exporter.LineFeedShown | tests/unit/Framework/Constraint/JsonMatchesTest.php:62-97 | A lone line feed is shown as the escape `\n` followed by a real line break |
| Exporter.CarriageReturnLineFeedShown | tests/unit/Framework/Constraint/JsonMatchesTest.php:62-97 | A carriage return and line feed pair is shown as the escape `\r\n` followed by one real line break |
| Exporter.ExportPlain | tests/unit/Framework/Constraint/JsonMatchesTest.php:62-97 | A printable one-line string without `<lf>` is shown exactly as itself between single quotes |
| JsonMatchesConstraint.ToString | tests/unit/Framework/Constraint/JsonMatchesTest.php:54-59 | The description is `matches JSON string "`, the expected text, and a closing double quote |
| JsonMatchesConstraint.ToStringInjective | tests/unit/Framework/Constraint/JsonMatchesTest.php:54-59 | Different expected texts give different descriptions |
| JsonMatchesConstraint.CanonicalizeText | tests/unit/Framework/Constraint/JsonMatchesTest.php:45-46 | Canonicalizing a text succeeds exactly when it decodes; the result is the canonical form of the decoded tree, is sorted at every depth, and is a fixed point |
| JsonMatchesConstraint.Matches | tests/unit/Framework/Constraint/JsonMatchesTest.php:26-30 | True exactly when both texts decode and their canonical forms are the same tree |
| JsonMatchesConstraint.FailureSentence | tests/unit/Framework/Constraint/JsonMatchesTest.php:62-97 | The sentence is `Failed asserting that `, the exported other text, a space, the description, and a full stop |
| JsonMatchesConstraint.FailureMessage | tests/unit/Framework/Constraint/JsonMatchesTest.php:62-97 | With an empty description (`""` or `"0"`) the message is the sentence; otherwise it is the description, a line break, and the sentence |
| JsonMatchesConstraint.Fail | tests/unit/Framework/Constraint/JsonMatchesTest.php:34-51 | The failure carries the message, and carries a comparison exactly when both texts decode |
| JsonMatchesConstraint.Evaluate | tests/unit/Framework/Constraint/JsonMatchesTest.php:26-51 | Result mode returns the verdict; throwing mode passes exactly on a match and otherwise raises with the failure message |
| JsonMatchesConstraint.EvaluateModesAgree | tests/unit/Framework/Constraint/JsonMatchesTest.php:26-51 | Throwing mode passes exactly when result mode returns true, and raises exactly when it returns false |
| JsonMatchesConstraint.SyntaxErrorOutcome | tests/unit/Framework/Constraint/JsonMatchesTest.php:62-97 | A text that does not decode, on either side, gives false, or raises with the message and no comparison |
| JsonMatchesConstraint.MismatchOutcome | tests/unit/Framework/Constraint/JsonMatchesTest.php:34-51 | A valid but unequal pair raises with a comparison holding both decoded values, the pretty-printed canonical forms, and `Failed asserting that two json values are equal.` |
| JsonMatchesConstraint.MatchesIffEquiv | tests/unit/Framework/Constraint/JsonMatchesTest.php:153-170 | On decoded well-formed trees, matching is exactly the reference equivalence |
| JsonMatchesConstraint.MatchesReflexive | tests/unit/Framework/Constraint/JsonMatchesTest.php:156-169 | Every text that decodes matches itself, whatever its top-level type, in both modes |
| MatchingLaws.EquivSameType | tests/unit/Framework/Constraint/JsonMatchesTest.php:160-162 | Equivalent values have the same JSON type |
| MatchingLaws.MatchesSymmetric | tests/unit/Framework/Constraint/JsonMatchesTest.php:153-170 | Swapping the expected and the other text does not change the verdict |
| MatchingLaws.DifferentTypesNeverMatch | tests/unit/Framework/Constraint/JsonMatchesTest.php:158-162 | Values of different types never match |
| MatchingLaws.ObjectNeverMatchesArray | tests/unit/Framework/Constraint/JsonMatchesTest.php:170 | An object never matches an array, in either role |
| MatchingLaws.PermutedMembersEquiv | tests/unit/Framework/Constraint/JsonMatchesTest.php:163 | An object is equivalent to any reordering of its members |
| MatchingLaws.MemberOrderIrrelevant | tests/unit/Framework/Constraint/JsonMatchesTest.php:163 | Objects whose members are a reordering of each other match |
| MatchingLaws.MemberValuesEquiv | tests/unit/Framework/Constraint/JsonMatchesTest.php:164 | Objects with the same keys in order and equivalent values position by position are equivalent |
| MatchingLaws.ChildMemberOrderIrrelevant | tests/unit/Framework/Constraint/JsonMatchesTest.php:164 | Reordering the members of an object nested under any key of a well-formed outer object does not change the match |
| MatchingLaws.ArraysMatchInOrder | tests/unit/Framework/Constraint/JsonMatchesTest.php:166 | Arrays match exactly when they have the same length and match element by element in order |
| MatchingLaws.SwappedElementsDiffer | tests/unit/Framework/Constraint/JsonMatchesTest.php:166 | Swapping two non-equivalent elements breaks the match |
| MatchingLaws.KeyPresenceMatters | tests/unit/Framework/Constraint/JsonMatchesTest.php:165 | A key present on one side only breaks the match, even with value `null` |
| MatchingLaws.MemberTypeMatters | tests/unit/Framework/Constraint/JsonMatchesTest.php:160-162 | A member whose value has a different type on each side breaks the match |
| MatchCases.ValidJson | tests/unit/Framework/Constraint/JsonMatchesTest.php:156 | Row 'valid JSON': true |
| MatchCases.ErrorSyntax | tests/unit/Framework/Constraint/JsonMatchesTest.php:157-159 | Rows 'error syntax' and 'invalid JSON in class instantiation': false |
| MatchCases.ErrorUtf8 | tests/unit/Framework/Constraint/JsonMatchesTest.php:177 | Row 'error UTF-8' of both tables (lines 158 and 177): false; in throwing mode it raises with the failure message and a comparison of the two decoded values and their printed canonical forms |
| MatchCases.StringTypeNotEqualsNumber | tests/unit/Framework/Constraint/JsonMatchesTest.php:178 | Row 'string type not equals number' of both tables (lines 160 and 178): false; in throwing mode it raises with the failure message and a comparison of the two decoded values and their printed canonical forms |
| MatchCases.StringTypeNotEqualsBoolean | tests/unit/Framework/Constraint/JsonMatchesTest.php:179 | Row 'string type not equals boolean' of both tables (lines 161 and 179): false; in throwing mode it raises with the failure message and a comparison of the two decoded values and their printed canonical forms |
| MatchCases.StringTypeNotEqualsNull | tests/unit/Framework/Constraint/JsonMatchesTest.php:180 | Row 'string type not equals null' of both tables (lines 162 and 180): false; in throwing mode it raises with the failure message and a comparison of the two decoded values and their printed canonical forms |
| MatchCases.ObjectFieldsAreUnordered | tests/unit/Framework/Constraint/JsonMatchesTest.php:163 | Row 'object fields are unordered': true |
| MatchCases.ChildObjectFieldsAreUnordered | tests/unit/Framework/Constraint/JsonMatchesTest.php:164 | Row 'child object fields are unordered': true |
| MatchCases.MissingMemberBreaksMatch | tests/unit/Framework/Constraint/JsonMatchesTest.php:165 | A `null` member missing on the other side gives false, wherever it stands |
| MatchCases.NullFieldDifferentFromMissingField | tests/unit/Framework/Constraint/JsonMatchesTest.php:165 | Row 'null field different from missing field' of the result-mode table: false |
| MatchCases.NullFieldFirstDifferentFromMissingField | tests/unit/Framework/Constraint/JsonMatchesTest.php:181 | The same row of the throwing-mode table: false, and in throwing mode it raises with the failure message and a comparison of the two decoded values and their printed canonical forms |
| MatchCases.ArrayElementsAreOrdered | tests/unit/Framework/Constraint/JsonMatchesTest.php:182 | Row 'array elements are ordered' of both tables (lines 166 and 182): false; in throwing mode it raises with the failure message and a comparison of the two decoded values and their printed canonical forms |
| MatchCases.SingleScalars | tests/unit/Framework/Constraint/JsonMatchesTest.php:167-169 | Rows 'single boolean', 'single number' and 'single null valid json': true |
| MatchCases.ObjectsAreNotArrays | tests/unit/Framework/Constraint/JsonMatchesTest.php:170 | Row 'objects are not arrays': false |
| FailureCases.ExportInvalid | tests/unit/Framework/Constraint/JsonMatchesTest.php:62-79 | The broken text is shown between single quotes |
| FailureCases.FailErrorWithInvalidValueAndOther | tests/unit/Framework/Constraint/JsonMatchesTest.php:62-79 | The exact message for a broken expected and other text, with no comparison |
| FailureCases.FailErrorWithValidValueAndInvalidOther | tests/unit/Framework/Constraint/JsonMatchesTest.php:81-97 | The exact message for a broken expected text and a valid other text, with no comparison |
| FailureCases.OrderedPairCanonicalize | tests/unit/Framework/Constraint/JsonMatchesTest.php:126-151 | A two-member object with keys in order keeps its order and canonicalizes its values |
| FailureCases.SwappedPairCanonicalize | tests/unit/Framework/Constraint/JsonMatchesTest.php:126-151 | The same two members out of order canonicalize to the ordered object |
| FailureCases.EmptyObjectNotConvertedToArrayInDiff | tests/unit/Framework/Constraint/JsonMatchesTest.php:100-124 | The comparison holds the decoded trees and their printed forms, and the nested empty object prints as `{}` |
| FailureCases.ObjectsAreCanonicalizedInDiff | tests/unit/Framework/Constraint/JsonMatchesTest.php:126-151 | The comparison's actual side is printed from the tree with `x` sorted before `y` |
| Decimal.IntToDecimal | src/Event/Value/Test/TestMethod.php:163-167 | The text is digits, after a minus sign for a negative number, with no leading zero and never `-0` |
| Decimal.IntToDecimalForm | src/Event/Value/Test/TestMethod.php:163-167 | The decimal text of every integer is in the form `%d` writes |
| Decimal.NatDecimalUnique | src/Event/Value/Test/TestMethod.php:163-167 | A digit string without a leading zero is the decimal text of its value, so the text of a number is unique |
| Decimal.IntDecimalUnique | src/Event/Value/Test/TestMethod.php:163-167 | A text in `%d` form that reads as an integer is exactly that integer's decimal text |
| Decimal.NatDecimalRoundTrip | src/Event/Value/Test/TestMethod.php:163-167 | Reading back the decimal text of a natural number gives the number |
| Decimal.IntDecimalRoundTrip | src/Event/Value/Test/TestMethod.php:163-167 | Reading back the decimal text of an integer, negative ones included, gives the integer |
| Decimal.IntToDecimalInjective | src/Event/Value/Test/TestMethod.php:163-167 | Different integers have different decimal texts |
| TestMethods.Create | src/Event/Value/Test/TestMethod.php:71-120 | Every accessor returns the argument given to the constructor |
| TestMethods.IsTestMethod | src/Event/Value/Test/TestMethod.php:125-128 | Always true |
| TestMethods.DataSetNameText | src/Event/Value/Test/TestMethod.php:138 | An integer name is written in canonical decimal form and reads back as the same integer; a string name is written as itself |
| TestMethods.Id | src/Event/Value/Test/TestMethod.php:133-142 | `Class::method`; with a data set, followed by `#` and the data set name, so `Class::method` is always a prefix |
| TestMethods.DataSetSuffix | src/Event/Value/Test/TestMethod.php:161-173 | ` with data set ` then `#` and the decimal number for an integer name, or the name in double quotes for a string name |
| TestMethods.Name | src/Event/Value/Test/TestMethod.php:155-176 | The method name alone without a data set; otherwise the method name followed by the data set suffix |
| TestMethods.NameWithClass | src/Event/Value/Test/TestMethod.php:147-150 | The class name, `::`, and `name()` |
| TestMethods.DataSetSuffixInjective | src/Event/Value/Test/TestMethod.php:161-173 | Different data set names give different suffixes, including integer versus string names |
| TestMethods.NameInjective | src/Event/Value/Test/TestMethod.php:155-176 | With the same method name, `name()` tells apart every data set and the absence of one |
| TestMethods.NameWithClassIsIdIffNoDataSet | src/Event/Value/Test/TestMethod.php:133-176 | `nameWithClass()` equals `id()` exactly when there is no data set |
| TestMethods.IdConflatesIntAndDigitNames | src/Event/Value/Test/TestMethod.php:133-142 | `id()` gives the integer name `n` and the string of its digits the same id |
| TestMethodCases.ConstructorSetsValues | tests/unit/Event/Value/TestMethodTest.php:22-50 | The constructor test: each accessor gives back its argument |
| TestMethodCases.NameWithoutDataSet | tests/unit/Event/Value/TestMethodTest.php:52-66 | `name()` is `testBar` and `id()` is `FooTest::testBar` |
| TestMethodCases.NameWithIntDataSet | tests/unit/Event/Value/TestMethodTest.php:68-95 | `name()` is `testBar with data set #9000` and `id()` is `FooTest::testBar#9000` |
| TestMethodCases.NameWithStringDataSet | tests/unit/Event/Value/TestMethodTest.php:97-124 | `name()` is `testBar with data set "bar-9000"`, and `nameWithClass()` prefixes it with `FooTest::` |

## Left out

- JSON decoding: `json_decode` is not modelled. It is the `Decoder` parameter, a function from text to a tree or an error. Well-formedness means distinct keys at every depth, which is what a decoder that lets the last duplicate win produces. It is a precondition of the order-insensitivity theorems only, not of the operations.
- `JsonMatches` and `Util\Json::canonicalize`/`prettify` are modelled from the assertions of `JsonMatchesTest.php` and the documented behaviour of `json_encode` with pretty printing, unescaped slashes and unescaped Unicode.
- Numbers: kept as their literal text, with no floating point. PHP re-renders floats (`1e2` becomes `100.0`), so texts whose numbers differ only in spelling may compare differently here.
- JsonMatchesConstraint.Matches: the source compares the re-encoded compact texts with PHP's loose `==`. The model compares the canonical trees. These differ where `==` compares numeric strings numerically: a top-level `1` and `1.0` re-encode to numeric strings that `==` treats as equal. Equality of re-encoded texts is taken to be equality of trees, that is, `json_encode` is taken to be injective.
- Canonical.Canonicalize: keys are ordered by code point, as `ksort` with `SORT_STRING` orders UTF-8 keys, and a sorted object stays an object when it is re-encoded. Earlier releases sorted numeric keys as numbers and re-encoded an object with keys `"0"`..`"n-1"` as a list; that behaviour is not modelled.
- Surrogate code units and invalid UTF-8 in strings are not modelled: Dafny characters are Unicode scalar values.
- Pretty.Prettify: only the empty-container cases and string-literal escaping are stated. That the printed text reads back as the same tree, which would make printing injective, is not proved.
- The unified diff printed under a mismatch, and the `ThrowableToStringMapper` formatting with its trailing line break, are left out. They are presentation by other libraries. The diff tests are modelled up to the comparison object they are computed from.
- Exporter.Export: models only the exporter's handling of strings: the binary check, quoting, and line-break rewriting, modelled from the documented behaviour of sebastian/exporter. The line-break rewriting is stated for every string without carriage returns or `<lf>`, and for a lone carriage return and line feed pair; strings with carriage returns in general are not characterised. `Utf8` is stated only by its byte count and byte range.
- TestMethods: `fromTestCase`, `sourceLocationFor`, `metadataFor` and `dataFor` are left out. They rely on reflection, the metadata registry and the exporter, which are foreign calls. The `is_numeric` conversion of a data set name to an integer (TestMethod.php:188-190) depends on PHP's numeric-string rules and is left out. Metadata is carried but never inspected.
- TestMethods.DataSetSuffix: `%d` formats a 64-bit integer, while the model's integers are unbounded. Data set names from PHP arrays are always in range, so nothing differs.
- `src/Event/Comparator/Registered.php` and the regression tests 2380, 2382 and 2830 are left out. They hold no logic beyond event plumbing and fixtures.
