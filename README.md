# eQReduapp core, modelled in Dafny

eQReduapp is an Android app. It scans an "eQR" code and decodes its bit-packed payload into an
intermediate language: labels, random-integer generators, worked solutions and exercises. It
draws a value for each generator, substitutes the values into the exercises, and compiles each
exercise to a small stack machine and runs it. It then offers exercises filtered by operation
tag and checks the learner's answers against the machine's result.

The project models that core and proves properties of the model:

| file | module | what it models |
|---|---|---|
| `text.dfy` | `Common`, `Text`, `LinkedMaps` | Kotlin's `trim`, `split`, `indexOf`, `replace` and `Int.toString`; insertion-ordered maps (`LinkedHashMap`) |
| `bit_reader.dfy` | `BitReading` | `BitReader`: an MSB-first bit cursor with 32-bit `Int` wrap-around in `readBits` |
| `elias_delta.dfy` | `EliasDelta` | `eliasDeltaDecode`, `eliasDeltaDecodeSigned` (zig-zag), and the matching encoders used to state round trips |
| `payload_format.dfy` | `PayloadFormat` | The payload grammar `QRBinaryDecoder` reads. Each part is a function from a bit position to a value and the next position, or to an error and the position where the cursor stopped |
| `payload_laws.dfy` | `PayloadLaws` | Round trips for strings and tags, header well-formedness, and the error cases that escape `decode` |
| `decoder.dfy` | `BinaryDecoder` | The `QRBinaryDecoder` class: methods that mutate the reader and the four collections, each proved equal to its format function |
| `vm.dfy`, `vm_laws.dfy` | `StackMachine`, `MachineLaws` | `StackVirtualMachine`: the instruction semantics (`Exec`), the fetch loop with its 10000-step limit (`Run`), `createResult`, and the class whose fields the methods update |
| `compiler.dfy`, `compiler_laws.dfy` | `ExpressionCompiler`, `CompilerLaws` | `ExpressionCompiler`: `tokenize`, `infixToPostfix` (shunting-yard), instruction emission, and equation compilation |
| `educational_vm.dfy` | `EducationalMachine` | `EducationalVM`: drawing the variables, substitution, `executeExercise`, `executeExercises`, `testExpression` |
| `exercise_generator.dfy` | `ExerciseGeneration` | `ExerciseGenerator`: tag matching, instance generation (labels, then variables, then splitting off the question), answer verification |
| `scanner.dfy` | `QRScanning` | `validateEQREducationalFormat` and `bytesToBinary` from the scanner screen |
| `navigation.dfy` | `Navigation` | `getAllAvailableTags`, the selection screen's STAR filter, and the exercise type "new exercise" asks for on a solution screen |
| `view_models.dfy` | `ViewModels` | `AppViewModel` and `ExerciseViewModel`: the state each screen action leaves behind |

Code that changes state in place is modelled as classes with `modifies` clauses: the bit
reader, the decoder, the stack machine, the educational VM, the generator and the view models.
Each method is proved equal to a specification function of its inputs and old state. The
properties are proved about those functions.

Exceptions become values. Decoder failures are `Result`/`Step` values whose constructors name
the exception (`EndOfData` for `EOFException`, `InvalidHeaderMarker`, `InvalidStringEncoding`).
Machine failures are `MachineError` values, and a range `Random.nextInt` rejects is an
`EmptyRange` draw.

## Model

| member | source | states |
|---|---|---|
| BitReading.BitsOfIndex | app/src/main/java/com/example/eqr_edu/QRBinaryDecoder.kt:366-374 | Bit `k` of payload byte `j` (counted from the most significant bit, as `readBit` shifts) is bit `8j+k` of the payload's bit view |
| BitReading.Wrap32 | app/src/main/java/com/example/eqr_edu/QRBinaryDecoder.kt:376-383 | The result is always a signed 32-bit `Int`, and a value already in range is unchanged |
| BitReading.WrapShift | app/src/main/java/com/example/eqr_edu/QRBinaryDecoder.kt:379-381 | Wrapping after every `shl 1 or bit` gives the same `Int` as wrapping once at the end |
| BitReading.ShiftInValue | app/src/main/java/com/example/eqr_edu/QRBinaryDecoder.kt:376-383 | Shifting bits into an accumulator gives the wrapped value of `acc·2^n` plus the bits read as a binary number |
| BitReading.SmallReadsDoNotWrap | app/src/main/java/com/example/eqr_edu/QRBinaryDecoder.kt:376-383 | A read of at most 31 bits is below `2^n`, so the Int conversion leaves it unchanged |
| BitReading.ReadAt | app/src/main/java/com/example/eqr_edu/QRBinaryDecoder.kt:376-395 | Reading `n` bits at `p` fails exactly when they run past the end. A failure is `EOFException` with the cursor at `max(p, end)`. A success ends at `p+n` |
| BitReading.BitReader.constructor | app/src/main/java/com/example/eqr_edu/QRBinaryDecoder.kt:362-364 | The cursor starts `startOffsetBits` into the given bytes |
| BitReading.BitReader.HasRemaining | app/src/main/java/com/example/eqr_edu/QRBinaryDecoder.kt:397 | True exactly when the cursor is before the end of the buffer |
| BitReading.BitReader.ReadBit | app/src/main/java/com/example/eqr_edu/QRBinaryDecoder.kt:366-374 | Before the end: returns the bit under the cursor and advances by one. At the end: EOF, and the cursor does not move |
| BitReading.BitReader.ReadBits | app/src/main/java/com/example/eqr_edu/QRBinaryDecoder.kt:376-383 | The value (wrapped to Int) and the new cursor are those of `ReadAt`, including where an EOF leaves the cursor |
| BitReading.BitReader.PeekBits | app/src/main/java/com/example/eqr_edu/QRBinaryDecoder.kt:385-391 | If the bits fit, returns `ReadAt`'s value and leaves the cursor where it was. If not, the EOF escapes before the position is restored, so the cursor stays at the end |
| BitReading.BitReader.SkipBits | app/src/main/java/com/example/eqr_edu/QRBinaryDecoder.kt:393-395 | Advances by `n`, or fails with EOF at the end of the buffer, as `ReadAt` says |
| EliasDelta.ZeroRun | app/src/main/java/com/example/eqr_edu/QRBinaryDecoder.kt:404-405 | A run of zeros is read up to and including the 1 bit that ends it, so the cursor ends just past that 1. A failure is EOF at the end of the buffer |
| EliasDelta.ZeroRunOf | app/src/main/java/com/example/eqr_edu/QRBinaryDecoder.kt:404-405 | `z` zeros followed by a 1 are read as `Done(z)`, ending just after the 1 |
| EliasDelta.CountZeros | app/src/main/java/com/example/eqr_edu/QRBinaryDecoder.kt:404-405 | The counting loop agrees with `ZeroRun`, value and cursor |
| EliasDelta.ReadOnePrefixed | app/src/main/java/com/example/eqr_edu/QRBinaryDecoder.kt:407-415 | The two shift loops agree with the one-prefixed read of `n` bits |
| EliasDelta.OnePrefixedBounded | app/src/main/java/com/example/eqr_edu/QRBinaryDecoder.kt:407-415 | A successful one-prefixed read of `n` bits lies in `[2^n, 2^(n+1))` and consumes exactly `n` bits |
| EliasDelta.EliasDeltaDecode | app/src/main/java/com/example/eqr_edu/QRBinaryDecoder.kt:403-417 | The value and the new cursor are those of the Elias-delta format function, including on EOF |
| EliasDelta.DeltaDecodeAdvances | app/src/main/java/com/example/eqr_edu/QRBinaryDecoder.kt:403-417 | A decode that succeeds moves the cursor forward, and a failure never moves it back |
| EliasDelta.DeltaRoundTrip | app/src/main/java/com/example/eqr_edu/QRBinaryDecoder.kt:403-417 | For `1 ≤ v < 2^31`, decoding the Elias-delta code of `v` gives `v` and consumes exactly the code |
| EliasDelta.DeltaDecodePositive | app/src/main/java/com/example/eqr_edu/QRBinaryDecoder.kt:403-417 | With at most four leading zeros, a decoded value lies in `[1, 2^31)` |
| EliasDelta.DeltaWrapsToZero | app/src/main/java/com/example/eqr_edu/QRBinaryDecoder.kt:403-417 | A code with five leading zeros whose value is 2^32 decodes to the Int 0, and a signed decode with a 1 flag over it gives 0 too |
| EliasDelta.DeltaWrapsNegative | app/src/main/java/com/example/eqr_edu/QRBinaryDecoder.kt:403-417 | A code with five leading zeros whose value is 2^31 decodes to the Int -2^31 |
| EliasDelta.ZigZagDecode | app/src/main/java/com/example/eqr_edu/QRBinaryDecoder.kt:427 | `(z ushr 1) xor -(z and 1)` is always a 32-bit Int |
| EliasDelta.ZigZagNonZero | app/src/main/java/com/example/eqr_edu/QRBinaryDecoder.kt:427 | The zig-zag decode of a code in `[1, 2^31)` is never 0 and lies in `[-2^30, 2^30)` |
| EliasDelta.ZigZagRoundTrip | app/src/main/java/com/example/eqr_edu/QRBinaryDecoder.kt:427 | Zig-zag decoding inverts zig-zag encoding for `|v| < 2^30`, and a non-zero value encodes to a positive code |
| EliasDelta.SignedAt | app/src/main/java/com/example/eqr_edu/QRBinaryDecoder.kt:422-428 | A signed decode that succeeds consumes at least the flag bit |
| EliasDelta.SignedAdvances | app/src/main/java/com/example/eqr_edu/QRBinaryDecoder.kt:422-428 | A signed decode that succeeds moves forward, and a failure never moves the cursor back |
| EliasDelta.EliasDeltaDecodeSigned | app/src/main/java/com/example/eqr_edu/QRBinaryDecoder.kt:422-428 | The flag bit, then (when it is 1) the zig-zagged delta code, agree with `SignedAt` |
| EliasDelta.SignedRoundTrip | app/src/main/java/com/example/eqr_edu/QRBinaryDecoder.kt:422-428 | Decoding the signed code of `v` (`|v| < 2^30`, zero as a single 0 bit) gives `v` and consumes exactly the code |
| EliasDelta.SignedNonZero | app/src/main/java/com/example/eqr_edu/QRBinaryDecoder.kt:422-428 | Under a 1 flag, with at most four leading zeros in the delta code, the signed value is never 0 and lies in `[-2^30, 2^30)` |
| PayloadFormat.Read | app/src/main/java/com/example/eqr_edu/QRBinaryDecoder.kt:376-383 | `readBits(n)` for `1 ≤ n ≤ 32`: it fails exactly when the bits run past the end, with EOF at `max(p, end)` |
| PayloadFormat.Skip | app/src/main/java/com/example/eqr_edu/QRBinaryDecoder.kt:393-395 | `skipBits(n)` fails exactly when the `n` bits run past the end |
| PayloadFormat.ReadBound | app/src/main/java/com/example/eqr_edu/QRBinaryDecoder.kt:376-383 | A read of at most 8 bits is a non-negative value below `2^n` |
| PayloadFormat.CharsAt | app/src/main/java/com/example/eqr_edu/QRBinaryDecoder.kt:335-356 | A 7- or 8-bit character read that succeeds moves forward and ends inside the buffer. Its only failure is EOF at the end |
| PayloadFormat.StringAt | app/src/main/java/com/example/eqr_edu/QRBinaryDecoder.kt:324-330 | A string read moves strictly forward, and a failure never moves the cursor back |
| PayloadFormat.TagsAt | app/src/main/java/com/example/eqr_edu/QRBinaryDecoder.kt:298-319 | The tag loop never moves back. Its only failure is EOF at the end of the buffer |
| PayloadFormat.PieceAt | app/src/main/java/com/example/eqr_edu/QRBinaryDecoder.kt:212-280 | One operand or operator piece of an expression moves the cursor strictly forward |
| PayloadFormat.OperatorAt | app/src/main/java/com/example/eqr_edu/QRBinaryDecoder.kt:216-241 | An operator code (basic, extended or end-of-expression) moves the cursor strictly forward |
| PayloadFormat.OperandAt | app/src/main/java/com/example/eqr_edu/QRBinaryDecoder.kt:246-279 | An operand (string, constant, or skipped type) moves the cursor strictly forward |
| PayloadFormat.ConstantAt | app/src/main/java/com/example/eqr_edu/QRBinaryDecoder.kt:256-271 | A constant subtype (signed integer, or the ignored boolean and unknown subtypes) moves the cursor strictly forward |
| PayloadLaws.ConstantTextNonZero | app/src/main/java/com/example/eqr_edu/QRBinaryDecoder.kt:260-263 | The text of a positive value is an optional `-`, present exactly with the sign, then decimal digits that do not start with `0` |
| PayloadLaws.ConstantNeverZero | app/src/main/java/com/example/eqr_edu/QRBinaryDecoder.kt:256-263 | An integer constant whose delta code has at most four leading zeros is the sign and a value in `[1, 2^31)`, so its text is never `0` or `-0` |
| PayloadLaws.ConstantWrapsToZero | app/src/main/java/com/example/eqr_edu/QRBinaryDecoder.kt:256-263 | With a 0 sign bit and the five-zero code of `DeltaWrapsToZero`, the constant is the text `0` |
| PayloadLaws.ConstantDoubleMinus | app/src/main/java/com/example/eqr_edu/QRBinaryDecoder.kt:256-263 | With a 1 sign bit and the code of `DeltaWrapsNegative`, the constant is `-` followed by the text of -2^31, so it starts with `--` |
| PayloadFormat.LabelAt | app/src/main/java/com/example/eqr_edu/QRBinaryDecoder.kt:68-81 | A decoded label's name is one of MINUS, PLUS, STAR, MORE_OPERANDS, and the read moves forward |
| PayloadFormat.RandIntAt | app/src/main/java/com/example/eqr_edu/QRBinaryDecoder.kt:86-91 | A name, then two signed values, moves the cursor strictly forward |
| PayloadFormat.HeaderAt | app/src/main/java/com/example/eqr_edu/QRBinaryDecoder.kt:50-63 | The header loop ends after its `00` marker, strictly forward. A failure never moves the cursor back |
| PayloadFormat.EndMarkerAt | app/src/main/java/com/example/eqr_edu/QRBinaryDecoder.kt:120-123 | The optional `000` skip can only fail at the end of the buffer |
| PayloadFormat.SolutionAttemptAt | app/src/main/java/com/example/eqr_edu/QRBinaryDecoder.kt:105-130 | A decoded solution moves the cursor forward. The try block breaks only when the data has run out |
| PayloadFormat.SolutionRestAt | app/src/main/java/com/example/eqr_edu/QRBinaryDecoder.kt:114-127 | The steps and tags part of a solution: the same forward and break guarantees |
| PayloadFormat.SolutionLoop | app/src/main/java/com/example/eqr_edu/QRBinaryDecoder.kt:98-131 | The loop stops at the end, or with at least 2 bits left. It fails only by EOF from the marker peek, at the end |
| PayloadFormat.SolutionLoopStep | app/src/main/java/com/example/eqr_edu/QRBinaryDecoder.kt:98-131 | After a `01` marker, a break ends the loop with the solutions so far, and a solution is appended before the loop goes on |
| PayloadFormat.SolutionSectionAt | app/src/main/java/com/example/eqr_edu/QRBinaryDecoder.kt:96-137 | The solution section, including the optional `00` skip, never moves the cursor back |
| PayloadFormat.ExerciseTryAt | app/src/main/java/com/example/eqr_edu/QRBinaryDecoder.kt:146-191 | One try block: an added exercise moves the cursor forward, and its text is not blank |
| PayloadFormat.ExerciseBodyAt | app/src/main/java/com/example/eqr_edu/QRBinaryDecoder.kt:162-191 | After the `01` prefix: an added exercise has non-blank text |
| PayloadFormat.ExerciseRestAt | app/src/main/java/com/example/eqr_edu/QRBinaryDecoder.kt:172-191 | Expression, tags, end marker and the `"prefix: expr"` join: an added exercise has non-blank text |
| PayloadFormat.VisibleText | app/src/main/java/com/example/eqr_edu/QRBinaryDecoder.kt:184-188 | Joining a question prefix to a non-blank expression gives non-blank text |
| PayloadFormat.ExerciseLoop | app/src/main/java/com/example/eqr_edu/QRBinaryDecoder.kt:146-200 | The exercise loop only appends: the exercises decoded before are a prefix of the result. If those all have visible text, so does every exercise of the result |
| PayloadFormat.ExerciseRoundLaw | app/src/main/java/com/example/eqr_edu/QRBinaryDecoder.kt:146-200 | A round that ends the loop gives the loop's result. A round that goes on moves the cursor forward and leaves a state with the same loop result |
| PayloadFormat.ExerciseLoopStep | app/src/main/java/com/example/eqr_edu/QRBinaryDecoder.kt:146-200 | One round: a failure before the end skips one bit and retries, a failure at the end stops, a stop keeps the list, and an added exercise is appended |
| PayloadFormat.DecodeFrom | app/src/main/java/com/example/eqr_edu/QRBinaryDecoder.kt:30-45 | Header, solutions, then exercises: a success ends past the start, and a failure never moves the cursor back |
| PayloadLaws.ReadFixed | app/src/main/java/com/example/eqr_edu/QRBinaryDecoder.kt:376-383 | Reading back `w` bits written as the binary code of `v` gives `v` |
| PayloadLaws.CharsRoundTrip | app/src/main/java/com/example/eqr_edu/QRBinaryDecoder.kt:335-356 | A string without the end code, written in 7- or 8-bit codes plus the end code, reads back as itself, consuming exactly its code |
| PayloadLaws.StringRoundTrip | app/src/main/java/com/example/eqr_edu/QRBinaryDecoder.kt:324-356 | An encoding selector followed by the string's code reads back as the string |
| PayloadLaws.TagCode | app/src/main/java/com/example/eqr_edu/QRBinaryDecoder.kt:305-311 | Each tag has a code in `1..4` that the tag table maps back to it |
| PayloadLaws.TagsRoundTrip | app/src/main/java/com/example/eqr_edu/QRBinaryDecoder.kt:298-319 | A list of tag codes followed by `000` reads back as the same list, stopping before the `000` |
| PayloadLaws.HeaderWellFormed | app/src/main/java/com/example/eqr_edu/QRBinaryDecoder.kt:50-91 | Decoding a header keeps label keys among the four names, and label and generator keys unique |
| PayloadLaws.InvalidMarkerThrows | app/src/main/java/com/example/eqr_edu/QRBinaryDecoder.kt:52-61 | A `11` header marker throws `InvalidHeaderMarker(3)` after the 2 bits are read |
| PayloadLaws.DecodeRejectsMarker3 | app/src/main/java/com/example/eqr_edu/QRBinaryDecoder.kt:50-61 | A payload whose third byte ends in binary `11` fails to decode with `InvalidHeaderMarker(3)`, because that marker sits at bit 22 |
| PayloadLaws.HeaderFailureEscapes | app/src/main/java/com/example/eqr_edu/QRBinaryDecoder.kt:30-45 | A header failure is not caught: `decode` fails with the same error |
| PayloadLaws.ShortPayloadFails | app/src/main/java/com/example/eqr_edu/QRBinaryDecoder.kt:50-53 | A payload under 3 bytes fails with EOF at the first header marker |
| PayloadLaws.SolutionPeekEscapes | app/src/main/java/com/example/eqr_edu/QRBinaryDecoder.kt:98-102 | With one bit left, the marker peek is outside the try and its EOF fails the whole section |
| PayloadLaws.SolutionEndPeekSafe | app/src/main/java/com/example/eqr_edu/QRBinaryDecoder.kt:132-136 | The closing `00` peek never adds a failure: the section fails exactly when the loop does, and only with EOF |
| PayloadLaws.DecodedExercisesVisible | app/src/main/java/com/example/eqr_edu/QRBinaryDecoder.kt:30-45 | Every exercise a successful decode returns has text with a non-whitespace character |
| PayloadLaws.ExpressionTrimmed | app/src/main/java/com/example/eqr_edu/QRBinaryDecoder.kt:292 | A decoded expression is already trimmed |
| BinaryDecoder.QRBinaryDecoder.constructor | app/src/main/java/com/example/eqr_edu/QRBinaryDecoder.kt:23-28 | The reader starts at bit 22 of the bytes, and the four collections start empty |
| BinaryDecoder.QRBinaryDecoder.Decode | app/src/main/java/com/example/eqr_edu/QRBinaryDecoder.kt:30-45 | The result and the cursor are those of `DecodeFrom` on the old collections |
| BinaryDecoder.QRBinaryDecoder.DecodeHeader | app/src/main/java/com/example/eqr_edu/QRBinaryDecoder.kt:50-63 | Labels and generators end as `HeaderAt` says, also on failure. Solutions and exercises are untouched |
| BinaryDecoder.QRBinaryDecoder.DecodeLabel | app/src/main/java/com/example/eqr_edu/QRBinaryDecoder.kt:68-81 | The label is put into the map under its name, or the error is returned where `LabelAt` fails |
| BinaryDecoder.QRBinaryDecoder.DecodeRandInt | app/src/main/java/com/example/eqr_edu/QRBinaryDecoder.kt:86-91 | The generator is put into the map with its `(min, max)` |
| BinaryDecoder.QRBinaryDecoder.DecodeSolutionSection | app/src/main/java/com/example/eqr_edu/QRBinaryDecoder.kt:96-137 | The solutions and the cursor end as `SolutionSectionAt` says. Nothing else changes |
| BinaryDecoder.QRBinaryDecoder.SolutionRound | app/src/main/java/com/example/eqr_edu/QRBinaryDecoder.kt:98-131 | One round either fails, ends the loop where `SolutionLoop` ends, or moves forward to a state with the same loop result |
| BinaryDecoder.QRBinaryDecoder.DecodeSolution | app/src/main/java/com/example/eqr_edu/QRBinaryDecoder.kt:105-130 | The try block yields `SolutionAttemptAt`'s solution or break, and leaves the cursor where it says |
| BinaryDecoder.QRBinaryDecoder.DecodeSolutionRest | app/src/main/java/com/example/eqr_edu/QRBinaryDecoder.kt:114-127 | The steps and tags part agrees with `SolutionRestAt` |
| BinaryDecoder.QRBinaryDecoder.SkipEndMarker | app/src/main/java/com/example/eqr_edu/QRBinaryDecoder.kt:120-123 | The optional `000` skip agrees with `EndMarkerAt` |
| BinaryDecoder.QRBinaryDecoder.DecodeExerciseSection | app/src/main/java/com/example/eqr_edu/QRBinaryDecoder.kt:142-201 | The exercises and the cursor end as `ExerciseLoop` says. Nothing else changes |
| BinaryDecoder.QRBinaryDecoder.ExerciseRound | app/src/main/java/com/example/eqr_edu/QRBinaryDecoder.kt:146-199 | One round leaves the flag, the exercises and the cursor that `ExerciseRoundAt` gives: after an error one bit is skipped if any is left, a stop ends the loop, and an added exercise is appended. The maps and the solutions are unchanged |
| BinaryDecoder.QRBinaryDecoder.DecodeExercise | app/src/main/java/com/example/eqr_edu/QRBinaryDecoder.kt:147-191 | The try body agrees with `ExerciseTryAt` |
| BinaryDecoder.QRBinaryDecoder.DecodeExerciseRest | app/src/main/java/com/example/eqr_edu/QRBinaryDecoder.kt:171-191 | The part after the prefix agrees with `ExerciseRestAt` |
| BinaryDecoder.QRBinaryDecoder.DecodeExpression | app/src/main/java/com/example/eqr_edu/QRBinaryDecoder.kt:206-293 | The text and the cursor are those of the expression format function (the loop, the 500-character stop, the trim) |
| BinaryDecoder.QRBinaryDecoder.DecodePiece | app/src/main/java/com/example/eqr_edu/QRBinaryDecoder.kt:212-280 | One loop body agrees with `PieceAt` |
| BinaryDecoder.QRBinaryDecoder.DecodeOperator | app/src/main/java/com/example/eqr_edu/QRBinaryDecoder.kt:216-241 | Agrees with `OperatorAt` |
| BinaryDecoder.QRBinaryDecoder.DecodeOperand | app/src/main/java/com/example/eqr_edu/QRBinaryDecoder.kt:246-279 | Agrees with `OperandAt` |
| BinaryDecoder.QRBinaryDecoder.DecodeConstant | app/src/main/java/com/example/eqr_edu/QRBinaryDecoder.kt:256-271 | Agrees with `ConstantAt` |
| BinaryDecoder.QRBinaryDecoder.DecodeTags | app/src/main/java/com/example/eqr_edu/QRBinaryDecoder.kt:298-319 | Agrees with `TagsAt` |
| BinaryDecoder.QRBinaryDecoder.DecodeString | app/src/main/java/com/example/eqr_edu/QRBinaryDecoder.kt:324-330 | Agrees with `StringAt`, including `InvalidStringEncoding` for selectors 2 and 3 |
| BinaryDecoder.QRBinaryDecoder.DecodeAsciiString | app/src/main/java/com/example/eqr_edu/QRBinaryDecoder.kt:335-343 | Agrees with the 7-bit `CharsAt` |
| BinaryDecoder.QRBinaryDecoder.DecodeUtf8String | app/src/main/java/com/example/eqr_edu/QRBinaryDecoder.kt:348-356 | Agrees with the 8-bit `CharsAt` |
| BinaryDecoder.QRBinaryDecoder.DecodeChars | app/src/main/java/com/example/eqr_edu/QRBinaryDecoder.kt:335-356 | The shared character loop agrees with `CharsAt` |
| BinaryDecoder.DecodePayload | app/src/main/java/com/example/eqr_edu/QRBinaryDecoder.kt:23-45 | A fresh decoder's `decode()` on the bytes returns `Decode(bytes)` |
| StackMachine.Exec | app/src/main/java/com/example/eqr_edu/EduVM.kt:353-473 | One instruction never changes the step count |
| StackMachine.Run | app/src/main/java/com/example/eqr_edu/EduVM.kt:326-348 | A run stops normally only after `Halt` or past the last instruction. It never counts more than 10001 steps, and the step-limit error comes exactly at 10001 |
| StackMachine.CreateResult | app/src/main/java/com/example/eqr_edu/EduVM.kt:504-534 | `success` exactly when the run ended normally; otherwise the error is kept. A successful equation reports `isEqual`, which is true exactly when the top is `1.0`. A successful expression reports the top, or `0.0` on an empty stack. Steps and stack are copied |
| StackMachine.StackVirtualMachine.constructor | app/src/main/java/com/example/eqr_edu/EduVM.kt:309-321 | Empty stack and table, counter 0, not running |
| StackMachine.StackVirtualMachine.Execute | app/src/main/java/com/example/eqr_edu/EduVM.kt:326-348 | Result and new machine state are those of `Run` from a reset state that keeps the variable table |
| StackMachine.StackVirtualMachine.ExecuteInstruction | app/src/main/java/com/example/eqr_edu/EduVM.kt:353-473 | The error (if any) and the new state are those of `Exec` |
| StackMachine.StackVirtualMachine.SetVariable | app/src/main/java/com/example/eqr_edu/EduVM.kt:478-480 | The table gets `name ↦ value` with map `put` semantics. Nothing else changes |
| StackMachine.StackVirtualMachine.SetVariables | app/src/main/java/com/example/eqr_edu/EduVM.kt:485-489 | Every entry is put in order, with values converted to reals |
| StackMachine.StackVirtualMachine.Reset | app/src/main/java/com/example/eqr_edu/EduVM.kt:494-499 | Clears the stack, counter, running flag and step count, and keeps the variables |
| MachineLaws.BinaryPopsTwoPushesOne | app/src/main/java/com/example/eqr_edu/EduVM.kt:366-435 | A binary instruction underflows on fewer than 2 values. Division by a zero top fails after popping both. Otherwise it replaces the top two values by one result and leaves the rest alone |
| MachineLaws.EqualWithinTolerance | app/src/main/java/com/example/eqr_edu/EduVM.kt:412-423 | `Equal` pushes 1.0 exactly when the operands differ by less than 0.0001. `Equal` and `NotEqual` are complementary, and `Equal` is symmetric |
| MachineLaws.AddOnlyFails | app/src/main/java/com/example/eqr_edu/EduVM.kt:326-348 | A lone `Add` underflows, and the result reports failure with 0 steps and an empty stack |
| MachineLaws.HaltIsCounted | app/src/main/java/com/example/eqr_edu/EduVM.kt:331-337 | `Halt` stops the loop and is counted as one step |
| MachineLaws.DivisionByZeroFails | app/src/main/java/com/example/eqr_edu/EduVM.kt:394-399 | `5 / 0` fails with division by zero after two steps, with the stack emptied |
| MachineLaws.NormalStep | app/src/main/java/com/example/eqr_edu/EduVM.kt:331-337 | A normal step continues the run at the next counter with one more step |
| MachineLaws.JumpLands | app/src/main/java/com/example/eqr_edu/EduVM.kt:450-452 | `Jump` continues at the target address (the `- 1` and the increment cancel) |
| MachineLaws.JumpIfFalseLands | app/src/main/java/com/example/eqr_edu/EduVM.kt:453-459 | `JumpIfFalse` underflows on an empty stack. Otherwise it pops and jumps exactly when the value is 0.0 |
| MachineLaws.JumpIfTrueLands | app/src/main/java/com/example/eqr_edu/EduVM.kt:460-466 | `JumpIfTrue` underflows on an empty stack. Otherwise it pops and jumps exactly when the value is not 0.0 |
| MachineLaws.SelfJumpHitsLimit | app/src/main/java/com/example/eqr_edu/EduVM.kt:338-341 | A self-loop ends with the step-limit error at step 10001 |
| MachineLaws.NoStoreKeepsVariables | app/src/main/java/com/example/eqr_edu/EduVM.kt:443-447 | Code without `StoreVar` leaves the variable table as it was |
| MachineLaws.PutAllGet | app/src/main/java/com/example/eqr_edu/EduVM.kt:485-489 | After `setVariables(vars)` with distinct names, every name reads back as its value |
| MachineLaws.PutAllHeld | app/src/main/java/com/example/eqr_edu/EduVM.kt:485-489 | Setting variables the table already holds leaves the table unchanged |
| MachineLaws.PutAllTwice | app/src/main/java/com/example/eqr_edu/EduVM.kt:485-489 | Setting the same variables twice is the same as once |
| ExpressionCompiler.PrecedingNonBlank | app/src/main/java/com/example/eqr_edu/EduVM.kt:276 | The nearest non-whitespace character before `i`; none exactly when everything before `i` is whitespace |
| ExpressionCompiler.Precedence | app/src/main/java/com/example/eqr_edu/EduVM.kt:299-304 | Positive exactly for the five operators, and 3 exactly for `^` |
| ExpressionCompiler.NumberEnd | app/src/main/java/com/example/eqr_edu/EduVM.kt:263-265 | The end of the maximal run of digits and dots |
| ExpressionCompiler.WordEnd | app/src/main/java/com/example/eqr_edu/EduVM.kt:271-273 | The end of the maximal run of letters, digits and underscores |
| ExpressionCompiler.Scan | app/src/main/java/com/example/eqr_edu/EduVM.kt:257-290 | One branch of the loop moves strictly forward, and a token is the exact substring it skipped |
| ExpressionCompiler.SkipNumber | app/src/main/java/com/example/eqr_edu/EduVM.kt:263-265 | The loop stops at `NumberEnd` |
| ExpressionCompiler.SkipWord | app/src/main/java/com/example/eqr_edu/EduVM.kt:271-273 | The loop stops at `WordEnd` |
| ExpressionCompiler.Tokenize | app/src/main/java/com/example/eqr_edu/EduVM.kt:252-294 | The token list is `Tokens(expression)`, the scan as written: a `-` is a sign only at the start or right after an operator or `(` |
| ExpressionCompiler.PopToOpen | app/src/main/java/com/example/eqr_edu/EduVM.kt:224-226 | What is left is a prefix of the operator stack, empty or with `(` on top |
| ExpressionCompiler.PopHigher | app/src/main/java/com/example/eqr_edu/EduVM.kt:232-236 | What is left is a prefix of the operator stack |
| ExpressionCompiler.InfixToPostfix | app/src/main/java/com/example/eqr_edu/EduVM.kt:214-247 | The output is `Postfix(Tokens(expression))`, the shunting-yard function whose laws are in `CompilerLaws` |
| ExpressionCompiler.EquationParts | app/src/main/java/com/example/eqr_edu/EduVM.kt:166 | One trimmed part per piece of `split("=")` |
| ExpressionCompiler.CompileWith | app/src/main/java/com/example/eqr_edu/EduVM.kt:138-179 | For either sign rule: "Invalid equation format" exactly when the text has `=` but does not split into two parts. Compiled code ends in `Halt`, is an equation exactly when the text has `=`, and keeps the text |
| ExpressionCompiler.Compile | app/src/main/java/com/example/eqr_edu/EduVM.kt:138-179 | compile with the sign rule as written: "Invalid equation format" exactly when the text has `=` but does not split into two parts. Compiled code ends in `Halt`, is an equation exactly when the text has `=`, and keeps the text |
| ExpressionCompiler.CompileExpression | app/src/main/java/com/example/eqr_edu/EduVM.kt:184-209 | Appends the instructions of the postfix tokens to the list it is given |
| ExpressionCompiler.CompileProgram | app/src/main/java/com/example/eqr_edu/EduVM.kt:138-179 | The imperative compiler returns `Compile(expression)` |
| CompilerLaws.TokensShape | app/src/main/java/com/example/eqr_edu/EduVM.kt:252-294 | Every token is a number run, a word, a signed number or a one-character symbol |
| CompilerLaws.TokenChars | app/src/main/java/com/example/eqr_edu/EduVM.kt:257-290 | No token contains whitespace. Every character of a token is a word character, a dot or a symbol |
| CompilerLaws.MinusRule | app/src/main/java/com/example/eqr_edu/EduVM.kt:276-288 | A `-` in sign position starts a number token; anywhere else it is the operator `-` |
| CompilerLaws.SkippedCharacters | app/src/main/java/com/example/eqr_edu/EduVM.kt:259-289 | Whitespace and unknown characters are skipped without a token |
| CompilerLaws.IntegerTextRoundTrip | app/src/main/java/com/example/eqr_edu/EduVM.kt:296 | The decimal text of an integer parses as a number equal to that integer |
| CompilerLaws.ShuntTokenLaw | app/src/main/java/com/example/eqr_edu/EduVM.kt:219-240 | One token of the main loop keeps operands in order and neither loses nor creates operators |
| CompilerLaws.ShuntFromLaw | app/src/main/java/com/example/eqr_edu/EduVM.kt:219-244 | The loop from token `k`, then the drain, outputs exactly the remaining operands in order, with the remaining operators as a multiset |
| CompilerLaws.PostfixLaws | app/src/main/java/com/example/eqr_edu/EduVM.kt:214-247 | The postfix output has the input's operands in the same order and the same operators as a multiset, and contains no `)` |
| CompilerLaws.LeftFirst | app/src/main/java/com/example/eqr_edu/EduVM.kt:232-237 | `a o1 b o2 c` with `o1` binding at least as tightly becomes `a b o1 c o2` (left associative) |
| CompilerLaws.TighterFirst | app/src/main/java/com/example/eqr_edu/EduVM.kt:232-237 | `a o1 b o2 c` with `o2` binding tighter becomes `a b c o2 o1` |
| CompilerLaws.OperatorAfterOperator | app/src/main/java/com/example/eqr_edu/EduVM.kt:232-237 | Two operators in a row: the first is popped by the second when it binds at least as tightly |
| CompilerLaws.Binary | app/src/main/java/com/example/eqr_edu/EduVM.kt:214-247 | `a o b` becomes `a b o` |
| CompilerLaws.PowerIsLeftAssociative | app/src/main/java/com/example/eqr_edu/EduVM.kt:234 | `2 ^ 3 ^ 2` becomes `2 3 ^ 2 ^`, because `>=` pops an equal `^` |
| CompilerLaws.ProductBeforeSum | app/src/main/java/com/example/eqr_edu/EduVM.kt:232-237 | `3 + 4 * 2` becomes `3 4 2 * +` |
| CompilerLaws.EmitThree | app/src/main/java/com/example/eqr_edu/EduVM.kt:188-208 | Two numbers and an operator emit two pushes and that operator's instruction |
| CompilerLaws.SpacedNegativeTokens | app/src/main/java/com/example/eqr_edu/EduVM.kt:276 | For the text `3 * -5`, `Tokens` gives `3 * - 5` as written and `TokensCorrected` gives `3 * -5` |
| CompilerLaws.SpacedNegativeAsWritten | app/src/main/java/com/example/eqr_edu/EduVM.kt:276 | As written, `Compile` turns the text `3 * -5` into `Push 3, Mul, Push 5, Sub, Halt`, and that code underflows on `Mul` |
| CompilerLaws.SignAfterBlanks | app/src/main/java/com/example/eqr_edu/EduVM.kt:276 | Under the corrected rule, a `-` after an operator or `(` and only whitespace is in sign position |
| CompilerLaws.SpacedNegativeCorrected | app/src/main/java/com/example/eqr_edu/EduVM.kt:276 | `CompileCorrected` turns the text `3 * -5` into `Push 3, Push -5, Mul, Halt`, and that code runs to `-15` |
| CompilerLaws.ApplyBinary | app/src/main/java/com/example/eqr_edu/EduVM.kt:326-348 | `Push x, Push y, op, Halt` runs to the single value of `op` on `x` and `y` in 4 steps |
| CompilerLaws.CompiledStraightLine | app/src/main/java/com/example/eqr_edu/EduVM.kt:138-209 | Compiled code has only pushes, loads and arithmetic before the final `Halt`. An `Equal` appears only second to last, and only in an equation. There is no `StoreVar` |
| CompilerLaws.CompiledKeepsVariables | app/src/main/java/com/example/eqr_edu/EduVM.kt:138-209 | Running compiled code never changes the variable table |
| CompilerLaws.IntegerTokens | app/src/main/java/com/example/eqr_edu/EduVM.kt:252-294 | The decimal text of an integer, with or without a sign, is a single token |
| CompilerLaws.IntegerCompiles | app/src/main/java/com/example/eqr_edu/EduVM.kt:138-209 | The decimal text of an integer compiles to `Push v, Halt`, not as an equation |
| CompilerLaws.PushThenHalt | app/src/main/java/com/example/eqr_edu/EduVM.kt:326-348 | `Push x, Halt` runs to the single value `x` in 2 steps |
| EducationalMachine.DrawableRange | app/src/main/java/com/example/eqr_edu/EduVM.kt:557 | For 32-bit bounds, `nextInt(min, max + 1)` can draw exactly when `min ≤ max < 2^31 - 1` (at `Int.MAX_VALUE` the `+ 1` wraps), and then it draws any value in `[min, max]` |
| EducationalMachine.DrawTableUnique | app/src/main/java/com/example/eqr_edu/EduVM.kt:554-559 | The drawn table never repeats a name |
| EducationalMachine.DrawTableLayout | app/src/main/java/com/example/eqr_edu/EduVM.kt:554-559 | With distinct generator names, the table has one entry per generator, and entry `i` pairs generator `i`'s name with the `i`-th drawn value |
| EducationalMachine.SubstitutedAbsent | app/src/main/java/com/example/eqr_edu/EduVM.kt:709-715 | Text in which no variable name occurs is unchanged by substitution |
| EducationalMachine.SubstitutedName | app/src/main/java/com/example/eqr_edu/EduVM.kt:709-715 | An expression that is just a variable name becomes its value's decimal text |
| EducationalMachine.Report | app/src/main/java/com/example/eqr_edu/EduVM.kt:600-633 | The result is valid exactly when the machine succeeded, and then it carries an evaluation |
| EducationalMachine.ExerciseResult | app/src/main/java/com/example/eqr_edu/EduVM.kt:584-646 | The id and original text are kept. It is valid exactly when there is an evaluation, and exactly when there is no error. Compiled code is missing exactly when compile threw; then the text is unsubstituted, with 0 steps and an empty stack |
| EducationalMachine.TestResult | app/src/main/java/com/example/eqr_edu/EduVM.kt:651-703 | Id 0, with the text kept. It is valid exactly when there is an evaluation. On a compile failure the error is "Test failed" with the equation, 0 steps and an empty stack |
| EducationalMachine.VariableExercise | app/src/main/java/com/example/eqr_edu/EduVM.kt:584-646 | An exercise that is a single variable evaluates, valid, to that variable's value in 2 steps |
| EducationalMachine.IntegerTest | app/src/main/java/com/example/eqr_edu/EduVM.kt:651-703 | Testing an integer's text gives that integer as the expression result |
| EducationalMachine.SameTable | app/src/main/java/com/example/eqr_edu/EduVM.kt:594-597 | Setting the drawn variables again after a run restores the same table, so every exercise runs against the same values |
| EducationalMachine.EducationalVM.constructor | app/src/main/java/com/example/eqr_edu/EduVM.kt:539-548 | A fresh machine with an empty stack and table, and no variables drawn |
| EducationalMachine.EducationalVM.InitializeVariables | app/src/main/java/com/example/eqr_edu/EduVM.kt:553-565 | Values are drawn in generator order, each within its range. On success the table is a draw for every generator and is set into the machine, and nothing else of the machine changes. At the first empty range the draw stops, and the machine is unchanged (`DrawnFrom`) |
| EducationalMachine.EducationalVM.SubstituteVariables | app/src/main/java/com/example/eqr_edu/EduVM.kt:709-715 | Returns `Substituted(expression, variables)`: every name replaced in table order |
| EducationalMachine.EducationalVM.ExecuteExercise | app/src/main/java/com/example/eqr_edu/EduVM.kt:584-646 | Returns `ExerciseResult`. The machine is untouched when compile throws, and is otherwise in `Run`'s final state |
| EducationalMachine.EducationalVM.ExecuteExercises | app/src/main/java/com/example/eqr_edu/EduVM.kt:570-579 | One result per exercise, with id `index + 1`, each equal to `ExerciseResult` on the same table |
| EducationalMachine.EducationalVM.TestExpression | app/src/main/java/com/example/eqr_edu/EduVM.kt:651-703 | Returns `TestResult`. The machine is left as for `ExecuteExercise`: unchanged when `compile` throws, otherwise in the final state of the run (`StateAfterTest`) |
| ExerciseGeneration.PlusAloneIsSingleton | app/src/main/java/com/example/eqr_edu/ExerciseGenerator.kt:24 | "contains PLUS and has size 1" holds exactly for the selection `{PLUS}` |
| ExerciseGeneration.Matching | app/src/main/java/com/example/eqr_edu/ExerciseGenerator.kt:24-34 | The kept exercises are exactly those of the list that match: tag set `{PLUS}` in exact mode, otherwise some tag selected |
| ExerciseGeneration.ExactKeepsLess | app/src/main/java/com/example/eqr_edu/ExerciseGenerator.kt:24-34 | For `{PLUS}`, the exact rule keeps a subset of what the overlap rule keeps |
| ExerciseGeneration.MixedExerciseUnderPlus | app/src/main/java/com/example/eqr_edu/ExerciseGenerator.kt:24-34 | An exercise tagged PLUS and MINUS is kept by the overlap rule but not by PLUS's exact rule |
| ExerciseGeneration.LabelThenVariable | app/src/main/java/com/example/eqr_edu/ExerciseGenerator.kt:61-87 | A label placeholder whose label text is a variable name ends up as that variable's value, because labels are replaced before variables |
| ExerciseGeneration.ParseExerciseExpression | app/src/main/java/com/example/eqr_edu/ExerciseGenerator.kt:106-134 | No question exactly when there is no `": "` and the text is not a single-`=` equation; then the expression is the text itself |
| ExerciseGeneration.LeftSideLaws | app/src/main/java/com/example/eqr_edu/ExerciseGenerator.kt:112-114 | The left side of a single-`=` equation contains no `=` and is trimmed |
| ExerciseGeneration.QuestionHead | app/src/main/java/com/example/eqr_edu/ExerciseGenerator.kt:107-110 | The text splits at its first `": "`, and the question part contains no `": "` |
| ExerciseGeneration.ParseWithQuestion | app/src/main/java/com/example/eqr_edu/ExerciseGenerator.kt:107-121 | With a question: an equation becomes `"question: left = ?"` with the left side as the expression; anything else is split at the `": "` |
| ExerciseGeneration.ParseWithoutQuestion | app/src/main/java/com/example/eqr_edu/ExerciseGenerator.kt:122-133 | Without a question: an equation becomes `"left = ?"` with the left side as the expression; anything else has no question |
| ExerciseGeneration.Instances | app/src/main/java/com/example/eqr_edu/ExerciseGenerator.kt:36-38 | One instance per matched exercise |
| ExerciseGeneration.InstanceAt | app/src/main/java/com/example/eqr_edu/ExerciseGenerator.kt:36-38 | Instance `i` is exercise `i`'s instance, with id `i + 1` |
| ExerciseGeneration.OfferedCarriesTag | app/src/main/java/com/example/eqr_edu/ExerciseGenerator.kt:20-39 | Every instance offered for PLUS has tag set exactly `{PLUS}`. Every instance offered for another tag carries that tag |
| ExerciseGeneration.Verdict | app/src/main/java/com/example/eqr_edu/ExerciseGenerator.kt:139-173 | Correct exactly when the test gave a valid expression result within 0.0001 of the answer. Otherwise there is no correct answer and the error carries the test's message. The user's answer is kept |
| ExerciseGeneration.IntegerAnswer | app/src/main/java/com/example/eqr_edu/ExerciseGenerator.kt:139-156 | For an integer expression, an answer is correct exactly when it is within 0.0001 of the integer, and the integer itself is correct |
| ExerciseGeneration.ExerciseGenerator.constructor | app/src/main/java/com/example/eqr_edu/ExerciseGenerator.kt:8-11 | Keeps the payload and the machine |
| ExerciseGeneration.ExerciseGenerator.GetExercisesByTag | app/src/main/java/com/example/eqr_edu/ExerciseGenerator.kt:20-39 | Succeeds exactly when every range can be drawn. The table and the machine are left as `InitializeVariables` leaves them (`DrawnFrom`): on success the machine holds the fresh draw. The result is the instances of the exercises that match, exact only for `{PLUS}` |
| ExerciseGeneration.ExerciseGenerator.GenerateNewExercises | app/src/main/java/com/example/eqr_edu/ExerciseGenerator.kt:44-52 | The same, with the overlap rule for every selection, and the same `DrawnFrom` state of the table and the machine |
| ExerciseGeneration.ExerciseGenerator.Redraw | app/src/main/java/com/example/eqr_edu/ExerciseGenerator.kt:21 | The draw succeeds exactly when every range can be drawn, and then the table is a draw. The table and the machine are left as `InitializeVariables` leaves them (`DrawnFrom`) |
| ExerciseGeneration.ExerciseGenerator.InstancesOf | app/src/main/java/com/example/eqr_edu/ExerciseGenerator.kt:36-38 | The `mapIndexed` loop returns `Instances` |
| ExerciseGeneration.ExerciseGenerator.GenerateExerciseInstance | app/src/main/java/com/example/eqr_edu/ExerciseGenerator.kt:57-101 | The two replacement loops and the parse return `Instance(id, exercise, …)` |
| ExerciseGeneration.ExerciseGenerator.VerifyAnswer | app/src/main/java/com/example/eqr_edu/ExerciseGenerator.kt:139-173 | Returns `Verdict` on `testExpression` of the instance's expression, and leaves the machine in the state `testExpression` leaves (`StateAfterTest`) |
| QRScanning.ValidationOf | app/src/main/java/com/example/eqr_edu/QRScannerScreen.kt:213-251 | Accepted exactly when there are at least 4 bytes, the decode succeeds and something was decoded. "Too short" exactly below 4 bytes. "Not eQR" exactly for the decode errors that are `IllegalArgumentException`s. A rejection for a decode error carries that error, and "no content" comes only after a successful decode |
| QRScanning.ValidateEQREducationalFormat | app/src/main/java/com/example/eqr_edu/QRScannerScreen.kt:213-251 | Returns `ValidationOf(bytes)` |
| QRScanning.MarkerThreeIsNotEducational | app/src/main/java/com/example/eqr_edu/QRScannerScreen.kt:240-242 | At least 4 bytes with a `11` first header marker are rejected as not eQR, with the invalid-marker error |
| QRScanning.ByteDigitsBits | app/src/main/java/com/example/eqr_edu/QRScannerScreen.kt:256-257 | Digit `k` of a byte's zero-padded 8-digit binary text is its bit `k`, most significant first |
| QRScanning.Spaced | app/src/main/java/com/example/eqr_edu/QRScannerScreen.kt:255-259 | Nine characters per byte |
| QRScanning.SpacedLayout | app/src/main/java/com/example/eqr_edu/QRScannerScreen.kt:255-259 | Character `9j + k` of the spaced text is digit `k` of byte `j` for `k < 8`, and a space for `k = 8` |
| QRScanning.TrimDropsLastSpace | app/src/main/java/com/example/eqr_edu/QRScannerScreen.kt:260 | For a non-empty payload, `trim()` removes exactly the final space |
| QRScanning.BinaryStringBits | app/src/main/java/com/example/eqr_edu/QRScannerScreen.kt:256 | Digit `j` from the right of `toString(2)` is bit `j` of the number |
| QRScanning.BytesToBinary | app/src/main/java/com/example/eqr_edu/QRScannerScreen.kt:253-261 | The loop returns `BinaryText(bytes)` |
| QRScanning.BinaryTextLayout | app/src/main/java/com/example/eqr_edu/QRScannerScreen.kt:253-261 | The text has `9n - 1` characters. Character `9j + k` is bit `8j + k` of the payload as `0`/`1` for `k < 8`, and a space between bytes |
| QRScanning.BinaryTextEmpty | app/src/main/java/com/example/eqr_edu/QRScannerScreen.kt:253-261 | No bytes give the empty text |
| Navigation.RankIsNameOrder | app/src/main/java/com/example/eqr_edu/AppNavigation.kt:233 | The rank order of the four tags is the lexicographic order of their names, as `sorted()` orders them |
| Navigation.SolutionTagsMembers | app/src/main/java/com/example/eqr_edu/AppNavigation.kt:226-228 | A tag is collected exactly when some solution carries it |
| Navigation.AvailableMembers | app/src/main/java/com/example/eqr_edu/AppNavigation.kt:221-234 | PLUS and MINUS are always offered. MORE_OPERANDS is offered exactly when a solution has STAR or MORE_OPERANDS. STAR is offered exactly when a solution has it |
| Navigation.AllAvailableTags | app/src/main/java/com/example/eqr_edu/AppNavigation.kt:221-234 | Sorted by name, without repeats, with exactly the members of the collected set |
| Navigation.SortedTags | app/src/main/java/com/example/eqr_edu/AppNavigation.kt:233 | A tag set listed in name order, without repeats |
| Navigation.Selectable | app/src/main/java/com/example/eqr_edu/AppNavigation.kt:106-107 | The offered tags without STAR, with order and sortedness kept |
| Navigation.SolutionExerciseType | app/src/main/java/com/example/eqr_edu/AppNavigation.kt:182-196 | PLUS without a solution. MORE_OPERANDS exactly when two operator tags (repeats counted) or MORE_OPERANDS are present. Otherwise STAR exactly when tagged, MINUS exactly when tagged and STAR is absent, and PLUS only when neither STAR nor MINUS is tagged |
| Navigation.SingleOperator | app/src/main/java/com/example/eqr_edu/AppNavigation.kt:182-196 | A solution with one tag asks for exactly that tag's type |
| Navigation.RepeatedPlusIsMixed | app/src/main/java/com/example/eqr_edu/AppNavigation.kt:184-189 | `[PLUS, PLUS]` counts as two operators and asks for MORE_OPERANDS |
| Navigation.TwoOperatorsAreMixed | app/src/main/java/com/example/eqr_edu/AppNavigation.kt:184-189 | Any two operator tags make the type MORE_OPERANDS, whatever else is tagged |
| ViewModels.Launch | app/src/main/java/com/example/eqr_edu/viewmodel/AppViewModel.kt:34-36 | Without a machine exactly when some range cannot be drawn. Otherwise a fresh machine on the payload, a draw, and one `ExerciseResult` per exercise |
| ViewModels.AppViewModel.constructor | app/src/main/java/com/example/eqr_edu/viewmodel/AppViewModel.kt:8-27 | Empty state, not ready, no machine |
| ViewModels.AppViewModel.ProcessQRData | app/src/main/java/com/example/eqr_edu/viewmodel/AppViewModel.kt:29-51 | Ready exactly when the bytes decode and every range can be drawn. Then every field is published from one fresh machine and its draw. Otherwise only `isDataReady` is cleared |
| ViewModels.AppViewModel.Load | app/src/main/java/com/example/eqr_edu/viewmodel/AppViewModel.kt:32-50 | The same, given the decode's result |
| ViewModels.AppViewModel.RegenerateVariables | app/src/main/java/com/example/eqr_edu/viewmodel/AppViewModel.kt:53-63 | With a kept machine: a new draw and a new batch of results. Without one: nothing changes. Labels, solutions, machine and payload are kept |
| ViewModels.AppViewModel.ResetData | app/src/main/java/com/example/eqr_edu/viewmodel/AppViewModel.kt:68-76 | Back to the empty, not-ready state with no machine |
| ViewModels.ExerciseViewModel.constructor | app/src/main/java/com/example/eqr_edu/viewmodel/ExerciseViewModel.kt:9-20 | No exercise, no result shown, no generator |
| ViewModels.ExerciseViewModel.InitializeGenerator | app/src/main/java/com/example/eqr_edu/viewmodel/ExerciseViewModel.kt:22-24 | A fresh generator over the given payload and machine. The screen state is kept |
| ViewModels.ExerciseViewModel.GenerateExercise | app/src/main/java/com/example/eqr_edu/viewmodel/ExerciseViewModel.kt:26-41 | If something is offered, one of the offered instances is shown without a verdict. It has exactly the PLUS tag for PLUS, and otherwise carries the tag. If nothing is offered, the screen state is kept. With a generator, the machine holds the generator's fresh draw when every range can be drawn, and is unchanged otherwise |
| ViewModels.ExerciseViewModel.Show | app/src/main/java/com/example/eqr_edu/viewmodel/ExerciseViewModel.kt:31-36 | Some element of a non-empty list is shown, and the verdict is cleared |
| ViewModels.ExerciseViewModel.SubmitAnswer | app/src/main/java/com/example/eqr_edu/viewmodel/ExerciseViewModel.kt:43-49 | With a generator: the result is shown, and it is the generator's `Verdict`, and the machine is left in `StateAfterTest`. Without one: nothing changes |
| Text.IsWhitespace | app/src/main/java/com/example/eqr_edu/EduVM.kt:260 | `Char.isWhitespace()`; a whitespace character is never a digit, a letter, `.` or `_`, so the scan's branches do not overlap |
| Text.IsDigit | app/src/main/java/com/example/eqr_edu/EduVM.kt:261 | `Char.isDigit()` below 256; a digit's code is `'0'` plus 0 to 9 |
| Text.IsLetter | app/src/main/java/com/example/eqr_edu/EduVM.kt:268 | `Char.isLetter()` below 256; every ASCII letter is a letter, and no letter is a digit, `.`, `_` or `-` |
| CompilerLaws.NonAsciiWordEmitsNothing | app/src/main/java/com/example/eqr_edu/EduVM.kt:268-297 | A word starting with a non-ASCII letter is scanned but fails the `[a-zA-Z]` variable pattern, so it is neither operand nor operator and emits no code |
| Text.TrimStart | app/src/main/java/com/example/eqr_edu/EduVM.kt:166 | Drops exactly the leading whitespace |
| Text.TrimEnd | app/src/main/java/com/example/eqr_edu/EduVM.kt:166 | Drops exactly the trailing whitespace |
| Text.TrimIdempotent | app/src/main/java/com/example/eqr_edu/EduVM.kt:166 | Trimming twice is trimming once |
| Text.TrimBlank | app/src/main/java/com/example/eqr_edu/QRBinaryDecoder.kt:184-188 | The trimmed text is empty exactly when every character is whitespace |
| Text.Split | app/src/main/java/com/example/eqr_edu/EduVM.kt:166 | At least one part, and no part contains the separator |
| Text.SplitJoin | app/src/main/java/com/example/eqr_edu/EduVM.kt:166 | Joining the parts with the separator gives back the text |
| Text.IndexOf | app/src/main/java/com/example/eqr_edu/ExerciseGenerator.kt:107 | `-1` exactly when the pattern never occurs, otherwise its first occurrence |
| Text.ReplaceAbsent | app/src/main/java/com/example/eqr_edu/EduVM.kt:712 | `replace` of a pattern that does not occur changes nothing |
| Text.IntToString | app/src/main/java/com/example/eqr_edu/EduVM.kt:712 | Non-empty, and it starts with `-` exactly for negative values |
| Text.NatToStringLead | app/src/main/java/com/example/eqr_edu/QRBinaryDecoder.kt:262 | The decimal text of a positive number does not start with `0` |
| LinkedMaps.PutGet | app/src/main/java/com/example/eqr_edu/EduVM.kt:478-480 | After `put(k, v)`, `k` reads back `v` and every other key is unchanged |
| LinkedMaps.PutKeys | app/src/main/java/com/example/eqr_edu/EduVM.kt:478-480 | `put` keeps the key order, and appends a new key at the end |
| LinkedMaps.PutUnique | app/src/main/java/com/example/eqr_edu/EduVM.kt:478-480 | `put` keeps keys unique |

## Left out

- Floating point: values are Dafny `real`s, so Double rounding, NaN and the infinities are not modelled. `Math.pow` is an opaque `pow` parameter of the machine. `toDoubleOrNull` is modelled on the token shapes the tokenizer can produce, so `"NaN"` and `"Infinity"` are not numbers here.
- Randomness: `Random.nextInt` is not modelled as a generator. `InitializeVariables` returns the drawn values as a ghost out-parameter constrained only to lie in their ranges. `generateExercise`'s random index is any index below the count.
- Text output: `disassemble`, `toString` of instructions, `debugInfo` strings and `Log` calls are left out. `compiledInstructions` holds the code, not its text. Error messages are constructors naming the exception, not message strings.
- UTF-8: an 8-bit string's bytes become characters with the same codes. Multi-byte sequences are not decoded.
- `leftResult` and `rightResult` of `VMExecutionResult` are never set by the source, so they are not modelled.
- Tags are an enumeration of the four names. The app never builds another tag string, and the decoder drops unknown codes.
- EducationalMachine.EducationalVM.ExecuteExercises: the machine's stack and counters after the batch are not stated. Only the variable table is stated, as what the next run sees.
- ExerciseGeneration.ExerciseGenerator.VerifyAnswer: the outer `catch` that turns an exception into "Verification error" is not modelled. Every failure inside `testExpression` is already caught there.
- ViewModels.AppViewModel.RegenerateVariables: the source has no `try` here. The model proves that none is needed, because every kept payload's ranges can be drawn.
- `getAllAvailableTags` takes `executionResults` but never reads it, so `Navigation.AllAvailableTags` does not take it.
- The navigation graph, route-argument parsing (`solutionId.toIntOrNull`, `getOrNull`), Compose UI code, camera and QR image scanning, and `LanguageViewModel` are outside this model.
- `getVM`, `getIL`, `getVariables`, `getLabels` and `getSolutions` are plain field reads. They are represented by the fields themselves.
- ExpressionCompiler.WordEnd: letters and digits are Kotlin's `isLetter`/`isDigit` only for characters below 256. In this model the decoder turns each byte into one character (see the UTF-8 line above), so every decoded character is below 256. Letters and digits at 256 and above, which real UTF-8 text can hold, are not modelled.
- ExpressionCompiler.Scan: the same character-class limit as `WordEnd` applies to the number and word branches.
- ExpressionCompiler.SkipWord: the same character-class limit as `WordEnd`.
- CompilerLaws.SkippedCharacters: a character at 256 or above that Kotlin counts as a letter or digit is treated as skipped here.
- EliasDelta.DeltaDecodePositive: the bound `[1, 2^31)` is proved only for codes with at most four leading zeros. So are `EliasDelta.SignedNonZero` (a signed value under a 1 flag is never 0) and `PayloadLaws.ConstantNeverZero` (an integer constant is never `0`). With five or more leading zeros, the shifts in `eliasDeltaDecode` wrap as Kotlin `Int`s do. `DeltaWrapsToZero` gives a code that decodes to 0, both unsigned and signed. `DeltaWrapsNegative` gives one that decodes to -2^31. `ConstantWrapsToZero` and `ConstantDoubleMinus` give the constants `0` and `--2147483648` that these codes become.
- Concurrency of the view models' state flows is not modelled. Each method runs to completion.

## Findings

| source | as written | input that shows it | evidently intended | confidence | as-written member | corrected member |
|---|---|---|---|---|---|---|
| app/src/main/java/com/example/eqr_edu/EduVM.kt:276 | A `-` starts a signed number only if the character right before it is an operator or `(`. The decoder writes operators as `" * "` with spaces and negative constants as `-5`, so after substitution a spaced expression's negative operand becomes an operator | `"3 * -5"` tokenizes to `3 * - 5` and compiles to `Push 3, Mul, Push 5, Sub`, which fails with stack underflow on `Mul` | Decide by the nearest non-blank character before the `-`, so `"3 * -5"` is `3 * -5` and evaluates to `-15` | not executed | CompilerLaws.SpacedNegativeAsWritten | CompilerLaws.SpacedNegativeCorrected |

The rest of the model follows the code as written: `Tokens`, `Tokenize`, `Compile` and everything
built on them use the rule at EduVM.kt:276. The corrected rule is `NonBlankPrevious`:
`TokensCorrected` scans with it, `CompileCorrected` is `CompileWith` under it, and
`SignAfterBlanks` states it in general.
