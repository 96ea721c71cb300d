# Built-in length validators and the scripted key reader of survey-rs

This project models two small pieces of the survey-rs terminal prompt library
in Dafny and proves properties of them.

1. **Built-in validators** (`src/validator.rs`). The macros `required!`,
   `max_length!`, `min_length!` and `length!` expand to closures that map an
   answer to `Ok(())` or `Err(message)`. They look only at the answer's
   `is_empty()` and `len()`, so one definition, `Validator.Validate` over
   `seq<T>`, serves both validator signatures:
   - `StringValidator` over `&str`. Here `len()` is the UTF-8 byte count, so
     `Validator.ValidateStr` measures `Utf8.Encode(s)`.
   - `MultiOptionValidator` over `&[OptionAnswer]`. Here `len()` is the
     number of chosen options (`Validator.ValidateOptions`).

   The one-argument macro forms build a default message. That message embeds
   the threshold through `format!("{}", n)`, which `Decimal.Show` models.
   `Decimal.Parse` reads the number back.
2. **Scripted input reader** (`inquire/src/prompts/test.rs`). Any iterator
   of keys is an `InputReader`. Each `read_key` takes the next item. Once the
   items run out, it fails with an `UnexpectedEof` I/O error carrying the
   message "No more keys in input". The script is a `seq<K>` consumed
   head-first. The key type `K` is a type parameter, because the key model
   is not part of this model. `fake_backend` hands its `Vec<Key>` to the
   backend as that reader.

Modules: `Results` (Rust's `Option`/`Result`), `Decimal`, `Utf8`, `Validator`, `ScriptedInput`.

## Model

| member | source | states |
|---|---|---|
| Validator.Validate | src/validator.rs:21-85 | `required` fails exactly on an empty answer; `max_length`/`min_length`/`length` accept exactly when `len <= n`, `len >= n`, `len == n` (boundary included); a failure carries exactly the validator's configured message |
| Validator.ValidateStr | src/validator.rs:11 | on a `&str` the length compared with the threshold is the UTF-8 byte count, and a failure carries the configured message |
| Validator.ValidateOptions | src/validator.rs:16 | on `&[OptionAnswer]` the length compared with the threshold is the number of chosen options |
| Validator.RequiredDefault | src/validator.rs:22-23 | `required!()` fails with exactly "A response is required." |
| Validator.MaxLengthDefault | src/validator.rs:38-39 | `max_length!(n)` has limit `n`, and its message is "The length of the response should be at most " followed by `n` in decimal, which reads back as `n` |
| Validator.MinLengthDefault | src/validator.rs:57-58 | `min_length!(n)` has limit `n`, and its message is the "at least" text followed by `n`, which reads back as `n` |
| Validator.LengthDefault | src/validator.rs:75-76 | `length!(n)` has limit `n`, and its message is the "should be" text followed by `n`, which reads back as `n` |
| Validator.ThresholdInShow | src/validator.rs:39 | a message built as prefix plus the decimal threshold yields that threshold back |
| Validator.MaxLengthMonotone | src/validator.rs:44-46 | an answer accepted by `max_length(n)` is accepted by `max_length(m)` for every `m >= n` |
| Validator.MinLengthAntitone | src/validator.rs:63-65 | an answer accepted by `min_length(n)` is accepted by `min_length(m)` for every `m <= n` |
| Validator.LengthIsMinAndMax | src/validator.rs:80-83 | `length(n)` accepts exactly what both `min_length(n)` and `max_length(n)` accept |
| Validator.RequiredIsMinLengthOne | src/validator.rs:27-30 | `required` decides like `min_length(1)`, and it accepts exactly what `length(0)` and `max_length(0)` reject |
| Validator.OnlyLengthMatters | src/validator.rs:44-46 | two answers of equal length get the same verdict from every built-in validator |
| Validator.DefaultMessagesDistinguish | src/validator.rs:39-76 | default messages of different thresholds differ, and no two of the `max_length`, `min_length` and `length` defaults coincide |
| Validator.RequiredStrAgreesWithChars | src/validator.rs:27 | on a `&str`, `is_empty` on bytes agrees with emptiness of the character sequence |
| Validator.AsciiStrAgreesWithChars | src/validator.rs:44 | on ASCII text the byte count equals the character count, so every validator agrees with the character view |
| Validator.StrLimitIsOnBytes | src/validator.rs:44-46 | the one-character string "é" is rejected by `max_length(1)` and accepted by `length(2)`: the limit is on bytes |
| Validator.OptionsCountChoices | src/validator.rs:16 | the verdict on chosen options depends on their number, not on the length of their text |
| Decimal.Show | src/validator.rs:39 | `format!("{}", n)` renders a non-empty digit string without leading zeros; it has one digit exactly when `n < 10` |
| Decimal.Parse | src/validator.rs:39 | the reader accepts exactly the canonical decimal renderings |
| Decimal.ParseShow | src/validator.rs:39 | parsing the rendering of `n` gives back `n` |
| Decimal.ShowParse | src/validator.rs:58 | a string parses to `n` exactly when it is canonical and is the rendering of `n` |
| Decimal.ShowDigitsValue | src/validator.rs:76 | every canonical digit string is the rendering of the number it denotes |
| Decimal.ShowInjective | src/validator.rs:39 | two thresholds render the same exactly when they are equal |
| Decimal.DigitsValueOfShow | src/validator.rs:39 | the digits of the rendering of `n` denote `n` |
| Utf8.Encode | src/validator.rs:11 | the byte string of a `&str`, which `len()` and `is_empty()` measure, has as many bytes as the sum of its characters' UTF-8 widths |
| Utf8.EncodeChar | src/validator.rs:11 | a character encodes to 1 to 4 bytes; the first is a lead byte and the rest are continuation bytes |
| Utf8.EncodeLength | src/validator.rs:44 | a string's byte length is the sum of its character widths and lies between its character count and four times that |
| Utf8.IsEmptyAgrees | src/validator.rs:27 | a string's bytes are empty exactly when the string is |
| Utf8.ByteLengthIsCharCountIffAscii | src/validator.rs:44 | byte length equals character count exactly for all-ASCII strings |
| Utf8.CharCountEncode | src/validator.rs:11 | counting the non-continuation bytes of an encoding gives back the number of characters |
| Utf8.CharCountAppend | src/validator.rs:11 | the character count of concatenated bytes is the sum of the counts |
| Utf8.CharCountEncodeChar | src/validator.rs:11 | one character's encoding holds exactly one character start |
| Utf8.ContinuationsCountNothing | src/validator.rs:11 | continuation bytes start no character |
| ScriptedInput.ReadKey | inquire/src/prompts/test.rs:10-15 | a read fails exactly when the script is empty, and then with `UnexpectedEof` and "No more keys in input", leaving the script empty; otherwise it returns the head and leaves exactly the tail |
| ScriptedInput.AfterDropsPrefix | inquire/src/prompts/test.rs:11 | after `j` reads the unread keys are the script minus its first `j` keys, or nothing once `j` reaches its length |
| ScriptedInput.ReadAtIsIndex | inquire/src/prompts/test.rs:11-15 | read number `j` returns key `j` of the script while `j` is below its length, and `UnexpectedEof` from then on |
| ScriptedInput.ExhaustedStaysExhausted | inquire/src/prompts/test.rs:11-15 | once the script is exhausted, every later read fails with the same error and the script stays empty |
| ScriptedInput.ReadKeys | inquire/src/prompts/test.rs:10-15 | `k` successive reads, stopping at the first error, return the first `k` keys in order when `k` is at most the script length; otherwise they return the whole script and then `UnexpectedEof` |
| ScriptedInput.FakeBackend | inquire/src/prompts/test.rs:19-21 | the fake backend's reader yields the given keys unchanged and in order: read `j` returns key `j`, and every read from the key count on fails with `UnexpectedEof` |

## Left out

- The `regex!` validator (src/validator.rs:87-106). It depends on the external `regex` crate, and `Regex::new(..).unwrap()` panics on a bad pattern.
- The `parse_primitive!` validator (src/validator.rs:108-122). It relies on the standard library's `FromStr` parsing of arbitrary primitive types, floating point included.
- The terminal and rendering side of `fake_backend`: `CrosstermTerminal::new_in_memory_output()`, `Backend::new(...)` and its `unwrap()`, and `RenderConfig::default()`. Their code is not part of this model, so `ScriptedInput.Backend` keeps only the key reader, and `Backend::new` is taken to succeed.
- Prompt state machines, the backend, the key model, styles and render configuration. `inquire/src/prompts/mod.rs` and `inquire/src/ui/mod.rs` only declare and re-export those modules, and their code is not part of this model.
- `#[macro_export]` and the `builtin_validators` feature gate: packaging only.
- Thresholds are `nat`, not `usize`. A length never exceeds `usize::MAX`, so the verdicts are the same.
- Validator.Validate: in the expansion, `$length` and `$message` are both evaluated inside the closure on every call: the threshold in the guard on each call, the message (and, for the one-argument forms, the `format!` of the threshold) only on a failing call. The model fixes both once, when the validator is built, so it does not cover arguments whose value changes between calls or that have side effects.
- Iterators other than a finite, fused script are not modelled: infinite iterators, and non-fused iterators that yield `Some` again after `None`. `ScriptedInput.ExhaustedStaysExhausted` holds for the fused `vec::IntoIter` that `fake_backend` builds, not for every `Iterator` the `InputReader` impl accepts. `IoError` and `InquireError` carry only the variant the reader raises.
