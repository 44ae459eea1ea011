# symbolicate, modelled in Dafny

`symbolicate` turns an Apple crash report (an `.ips` file) for a Rust program
into a readable backtrace. It reads the report, asks `dwarfdump --uuid` for
the UUID of a debug-symbol bundle (a dSYM), and finds the used image that
carries that UUID. It then lists the faulting thread's frame offsets and
passes them to `atos`. Each resolved `atos` line becomes `path:\tsymbol`;
any other line is kept as it is. The result is demangled and cut into one
block per frame. Finally every frame that has a block (the pairing stops at
the shorter side) and is not crash-handling noise is printed.

The model has five modules:

- `Wrappers` (`wrappers.dfy`): `Option` and `Result`. `:-` plays the part of
  Rust's `?`.
- `Text` (`text.dfy`): the Rust string operations the program relies on,
  stated over sequences with their edge cases. These are `split_once`,
  `split`, `contains`, `trim`, `trim_end_matches`, `split_whitespace`,
  `lines().next()`, `to_lowercase` and `{:x}`.
- `Json` (`json.dfy`): JSON values, and the behaviour of serde's derived
  `Deserialize` that the records rely on. That covers defaulted fields,
  required fields, `Option` fields that accept `null`, and ignored unknown
  keys.
- `Ips` (`ips_file.dfy`): `IPSFile::parse`, `faulting_thread` and the
  default-filled records of `src/ips_file.rs`.
- `Symbolicate` (`symbolicate.dfy`): the pipeline inside `main` in
  `src/main.rs`.
  - The UUID extraction, image lookup, offset list and block split are
    functions.
  - The normalising loop over `atos` lines (`Normalise`) and the rendering
    loop over frames (`Render`) are methods whose loops are proved against
    the functions `Normalised` and `Emitted`.
  - `Run` strings the steps together in the order `main` runs them.

The external tools are parameters of `Run`:

- `uuidProbe` is the text `dwarfdump --uuid` printed.
- `resolve` maps the offset arguments to the text `atos` printed.
- `demangle` stands for `rustc_demangle::demangle_stream`.
- `parseJson` turns bytes into a JSON value, or fails with a syntax message.

Three behaviours of the code are easy to misread, and the model follows the
code in each:

- A negative `image_offset` is printed as its 64-bit two's complement.
- A negative frame or thread index is converted with `as usize`, which wraps.
- A report without a faulting thread prints nothing, but only after the bundle's
  image has been found.

## Model

| member | source | states |
|---|---|---|
| Ips.SplitAtFirstNewline | src/ips_file.rs:16-17 | The pieces are the bytes before the first newline and, only if there is a newline, everything after it. The first piece holds no newline, and piece, newline and rest rebuild the input. |
| Ips.Parse | src/ips_file.rs:15-26 | "No header found" never happens. A success needs a newline in the input. A header failure means the first line does not decode as a header. |
| Ips.ParseSplitsAtFirstNewline | src/ips_file.rs:16-25 | For any header without a newline, parsing header + newline + body gives exactly the two halves decoded, header first. The body may hold further newlines. |
| Ips.ParseWithoutNewline | src/ips_file.rs:16-21 | Input without a newline is still header-decoded first. If the header decodes, the result is "No body found". |
| Ips.HeaderErrorComesFirst | src/ips_file.rs:18-21 | If the header does not decode, the result is that header error, with any body bytes and also with no body at all; two bodies give the same result. |
| Ips.AsU64 | src/ips_file.rs:29 | `i64 as usize` on a 64-bit target: the result is below 2^64 and congruent to the input modulo 2^64. |
| Ips.FaultingThread | src/ips_file.rs:28-30 | No index gives None. An index in range gives that thread. An index past the end gives None, and so does a negative one, which wraps to a huge index. |
| Ips.Message | src/ips_file.rs:17-24 | The four error texts of `parse`, with the decoder's message after the header and body prefixes. No contract of its own; `Run` reports it. |
| Ips.FromSlice | src/ips_file.rs:18-24 | `serde_json::from_slice`: a rejection by the JSON text parser is a syntax error; otherwise the value is decoded into the record. No contract of its own; the `Parse` lemmas use it. |
| Ips.FrameFields | src/ips_file.rs:203-210 | Decodes a frame's four keys, each defaulted. No contract of its own; `FrameDefaultFill` and `EmptyObjectsDecodeToDefaults` state it. |
| Ips.ThreadFields | src/ips_file.rs:192-201 | Decodes a thread's keys, each defaulted; `threadState` must be an object. No contract of its own; `ThreadDefaultFill` states it. |
| Ips.UsedImageFields | src/ips_file.rs:212-229 | Decodes a used image's ten keys under their camel-case and `CFBundle…` names, each defaulted. No contract of its own; `UsedImageDefaultFill` states it. |
| Ips.HeaderFields | src/ips_file.rs:33-51 | Decodes the fourteen header keys, each defaulted. No contract of its own; `HeaderFieldsByField` characterises it. |
| Ips.BodyFields | src/ips_file.rs:52-107 | Decodes the kept body keys, each defaulted. No contract of its own; `BodyDefaultFill` states it. |
| Ips.LegacyInfoFields | src/ips_file.rs:238-242 | Decodes `threadTriggered`, defaulted when absent. No contract of its own; `ThreadTriggeredNeedsBothKeys` states it. |
| Ips.ThreadTriggeredFields | src/ips_file.rs:244-248 | Decodes `name` and `queue`, both required. No contract of its own; `ThreadTriggeredNeedsBothKeys` states it. |
| Json.DefaultField | src/ips_file.rs:33-34 | A field of a struct under `#[serde(default)]`: an absent key reads as the default, a present one must decode. No contract of its own; `DefaultFieldWithout` and the `…DefaultFill` lemmas state it. |
| Json.RequiredField | src/ips_file.rs:244-248 | A field of a struct without `#[serde(default)]`: an absent key fails with a missing-field error. No contract of its own; `ThreadTriggeredNeedsBothKeys` states it. |
| Ips.EmptyObjectsDecodeToDefaults | src/ips_file.rs:33-34 | An empty object decodes to each record's `Default`. The exception is `ThreadTriggered`, which fails with a missing `name`. |
| Ips.FrameDefaultFill | src/ips_file.rs:203-210 | Removing any set of keys from a frame that decodes puts exactly those fields at their defaults and leaves the others as they were. |
| Ips.ThreadDefaultFill | src/ips_file.rs:192-201 | The same for a thread; `thread_state` is not kept. |
| Ips.UsedImageDefaultFill | src/ips_file.rs:212-229 | The same for a used image, with its renamed `CFBundle…` keys. |
| Ips.HeaderFieldsByField | src/ips_file.rs:33-51 | A header object decodes to `h` exactly when each of its fields, under the `bundleID` rename, reads as `h`'s. |
| Ips.HeaderDefaultFill | src/ips_file.rs:33-51 | The same default filling for the header. |
| Ips.BodyDefaultFill | src/ips_file.rs:52-107 | The same for the body fields the model keeps. |
| Ips.ThreadTriggeredNeedsBothKeys | src/ips_file.rs:244-248 | `ThreadTriggered` has no default: a missing `name`, or a missing `queue`, fails. Such a failure fails the enclosing `LegacyInfo` too. |
| Symbolicate.FirstLine | src/main.rs:31-32 | `lines().next()` gives None only for empty text. Otherwise the line is a newline-free prefix that ends at the end, at a `\n`, or at a `\r\n`. A `\r` is dropped only directly before the `\n`. |
| Symbolicate.ProbedUuid | src/main.rs:30-37 | Empty probe output fails with "No UUID found in dwarfdump output". Any other failure is "Failed to extract UUID". A success is one whitespace-free, non-empty word. |
| Symbolicate.ProbedUuidOfLine | src/main.rs:30-37 | With `line` as the first line, the result is the line's second word, or "Failed to extract UUID" when it has fewer than two. A `\r` dropped before the newline never changes this. |
| Symbolicate.ProbedUuidIsSecondWord | src/main.rs:30-37 | When the first line is optional whitespace, a word, whitespace, the UUID, then end of line or whitespace, the result is that UUID whatever lines follow. |
| Symbolicate.ProbedUuidNeedsTwoWords | src/main.rs:30-36 | A first line that is empty, blank, or one word with whitespace around it fails with "Failed to extract UUID", whatever lines follow. |
| Symbolicate.NoSymbolsMessage | src/main.rs:47 | The missing-image message starts with the dSYM path. |
| Symbolicate.FindImage | src/main.rs:39-48 | The result is the lowest index whose UUID equals the probed UUID, ignoring case. None means no image matches. |
| Symbolicate.OffsetArgument | src/main.rs:54 | `"0x"` followed by lowercase hex digits whose value is the offset's 64 bits, with no leading zero except in `0x0`. |
| Symbolicate.OffsetArguments | src/main.rs:51-55 | One argument per frame, in frame order. |
| Symbolicate.AfterFirst | src/main.rs:81 | `splitn(2, pat).nth(1).unwrap_or("")`: the text after the first occurrence, or nothing if there is none. |
| Symbolicate.SourcePath | src/main.rs:80-87 | With `/crates/` in the source, the path is `crates/` plus the text after the first `/crates/`. Otherwise it is `/` plus the source. Every trailing `)` is removed, and only those. |
| Symbolicate.SourcePathOneLine | src/main.rs:80-87 | A path built from a newline-free source holds no newline. |
| Symbolicate.RewriteLine | src/main.rs:69-91 | A line without `(in` is kept as it is. A line without a newline is rewritten into one without a newline. |
| Symbolicate.RewrittenOneLine | src/main.rs:80-90 | The rewritten text is made of pieces of the original line, so it holds no newline when the line holds none. |
| Symbolicate.RewritesResolvedFrame | src/main.rs:69-90 | The first `(in` at `i` and the first `(/` after it at `k` give `SourcePath(text after that "(/") + ":\t" + trim(text before "(in")`. |
| Symbolicate.KeepsLineWithoutSource | src/main.rs:74-78 | A line with `(in` but no `(/` after its first `(in` is kept as it is. |
| Symbolicate.Normalised | src/main.rs:66-92 | The buffer the loop builds: each line's rewrite followed by `\n`. No contract of its own; `Normalise` and `OneLinePerPiece` state what it is. |
| Symbolicate.Normalise | src/main.rs:66-92 | The loop's buffer is every `\n`-separated piece of the resolver output, each rewritten and followed by `\n`, in order. |
| Symbolicate.OneLinePerPiece | src/main.rs:67-91 | Cutting the buffer at `\n` gives back exactly one rewritten line per input piece, the empty piece after a final newline included, and then the empty tail. |
| Symbolicate.Blocks | src/main.rs:101-104 | There is at least one block, and joining the blocks with a blank line gives back the demangled text. Every block but the last ends where the first `"\n\n"` after its start begins, and the last block holds none. With the join, this fixes the blocks uniquely (`Text.SplitUnique`). |
| Symbolicate.BlocksCutAtFirstBlankLine | src/main.rs:101-104 | `"a\n\n\n"` is cut into `"a"` and `"\n"`: the leftover newline starts the next block rather than ending the previous one. |
| Symbolicate.IsNoise | src/main.rs:107-115 | A frame is noise when it has a symbol containing one of the five substrings. A frame without a symbol never is. No contract of its own; `NoiseIsSkipped` and `OtherFrameIsPrinted` state its effect. |
| Symbolicate.TextOrEmpty | src/main.rs:122-125 | `unwrap_or_default` on an optional string: the text, or empty when absent. No contract of its own; `FrameLine` and `OtherFrameIsPrinted` use it. |
| Symbolicate.InRange | src/main.rs:116-121 | A frame can be printed without a panic: it is in the bundle's image, or its image index, cast to `usize`, indexes the used images. No contract of its own; `Render` requires it through `Renderable`. |
| Symbolicate.Renderable | src/main.rs:106-121 | Every pair the loop reaches that is not noise is `InRange`, so the loop runs without an index panic. No contract of its own; `Run` reports `IndexPanic` exactly when it fails, and `RenderableAround` splits it. |
| Symbolicate.FrameLine | src/main.rs:116-127 | A frame in the bundle's image prints its block. Any other frame prints the image name, a tab and the symbol, with absent ones empty. No contract of its own; `OtherFrameIsPrinted` places it in the output. |
| Symbolicate.Emitted | src/main.rs:106-128 | The lines the rendering loop prints, pair by pair. No contract of its own; `Render` and the lemmas below state what it is. |
| Symbolicate.Zip | src/main.rs:106 | Pairs by position, as many as the shorter side has. |
| Symbolicate.Render | src/main.rs:106-128 | The loop prints exactly `Emitted` of the frames zipped with the blocks. |
| Symbolicate.EmittedIsFilterThenPrint | src/main.rs:106-128 | Rendering drops the noise pairs and prints every remaining pair's line, in order. |
| Symbolicate.FrameLinesAppend | src/main.rs:106-128 | Printing two runs of pairs in turn prints the lines of each in turn. |
| Symbolicate.EmittedAppend | src/main.rs:106-128 | Rendering is compositional: two runs of pairs render as the first run's lines followed by the second's. |
| Symbolicate.RenderableAround | src/main.rs:116-121 | If a sequence can be rendered without a panic, so can its parts. |
| Symbolicate.NoiseIsSkipped | src/main.rs:107-115 | A frame whose symbol contains `pthread_kill`, `panic`, `backtrace`, `rust_begin_unwind` or `abort` prints nothing, wherever it stands. |
| Symbolicate.OtherFrameIsPrinted | src/main.rs:106-127 | Any other frame prints exactly one line in its place: its block when it is in the bundle's image, otherwise image name, tab, symbol. That includes a frame without a symbol. |
| Symbolicate.NoNoisePrintsEveryPair | src/main.rs:106-127 | Without noise, line `i` of the output belongs to pair `i`. |
| Symbolicate.Run | src/main.rs:24-129 | Errors come in `main`'s order: report parse, UUID, missing image. With no faulting thread nothing is printed. Otherwise the printed lines are the rendering of the faulting thread's frames zipped with the blocks. An image index out of range is a panic. |
| Text.Contains | src/main.rs:108-112 | `str::contains` (also at src/main.rs:80): the pattern occurs at some position. No contract of its own; `SplitOnce` is None exactly when it fails. |
| Text.SplitOnce | src/main.rs:69 | `split_once`: None exactly when the pattern is absent. Otherwise the halves around the first occurrence. |
| Text.Split | src/main.rs:67 | `split` always yields at least one piece. |
| Text.SplitCutsAtFirst | src/main.rs:102 | Every piece of a `split` but the last, followed by the separator, has its leftmost separator at its end. So a separator is cut at its leftmost occurrence, and scanning goes on after it. |
| Text.SplitLastPiece | src/main.rs:102 | The last piece of a `split` holds no separator. |
| Text.SplitUnique | src/main.rs:102 | Any pieces that join back into the text, are each cut at the leftmost separator, and end in a separator-free piece are exactly the `split` pieces. |
| Text.SplitOnElementCount | src/main.rs:67 | Splitting at one character gives one more piece than there are occurrences of it. |
| Text.SplitPiecesAvoidSeparator | src/main.rs:67 | No piece of a `split` contains the separator. |
| Text.JoinSplit | src/main.rs:101-104 | Joining the pieces of a `split` with the separator gives back the text. |
| Text.SplitTerminated | src/main.rs:67-91 | Splitting separator-free parts, each followed by the separator, gives back the parts and then an empty piece. |
| Text.TrimEndMatches | src/main.rs:83 | `trim_end_matches` removes the whole trailing run of matching elements and nothing else. |
| Text.TrimMatches | src/main.rs:90 | `trim` removes matching runs at both ends and keeps the inner text. |
| Text.Fields | src/main.rs:34 | Every word of `split_whitespace` is non-empty and holds no whitespace. |
| Text.FieldsKeepEveryOtherElement | src/main.rs:34 | Concatenating the words gives the text with its whitespace removed. |
| Text.FieldsSkipSeparators | src/main.rs:34 | Leading whitespace does not change the words. |
| Text.FieldsStartWithField | src/main.rs:34 | A word followed by whitespace or the end is the first word. |
| Text.FieldsSnocSeparator | src/main.rs:34 | Trailing whitespace does not change the words. |
| Text.FieldsOfOneRun | src/main.rs:34-36 | Whitespace around at most one word gives that word alone, or no word. |
| Text.ToLowerEqual | src/main.rs:39-45 | Two texts are equal after lowercasing exactly when they have the same length and agree character by character, ignoring case. |
| Text.LowerHex | src/main.rs:54 | `{:x}`: non-empty lowercase hex digits, with a leading `0` only for zero. |
| Text.LowerHexRoundTrip | src/main.rs:54 | Reading the hex digits back gives the number. |
| Text.FirstIndex | src/main.rs:43-45 | `enumerate().find`: the lowest index that satisfies the test, or None exactly when none does. |
| Json.DecodeEach | src/ips_file.rs:100-101 | A `Vec` decodes exactly when every element does, element by element and in order. |

## Left out

- JSON text itself is not parsed. `serde_json::from_slice` is split in two: `parseJson` (bytes to a JSON value, a parameter) and a decoder into the record. Only the decoder is modelled, and its messages are not serde's wording.
- The `Header` is decoded with every field. The `Body` keeps only `faultingThread`, `threads` and `usedImages`, plus `legacyInfo`, which shows the one record without defaults. The other body fields and records (`os_version`, `bundle_info`, `exception`, `termination`, `asi`, `ext_mods`, `shared_cache`, `trial_info` and so on) are never read by the program and are not modelled. A wrongly typed value in one of them makes the real parse fail, and the model misses that.
- `Thread.thread_state` and the other `HashMap<String, Value>` fields carry arbitrary JSON that nothing reads, so they are not kept.
- Floating-point JSON numbers are not distinguished. A `Number` is an integer, and `i64` fields reject values outside the `i64` range.
- `to_lowercase` is modelled on ASCII letters only. Full Unicode case mapping is not, and UUIDs are hexadecimal text.
- Argument checking, the usage message and reading the report file (`src/main.rs:13-22`) are I/O and are left out. The dSYM path is the parameter `dsymPath`.
- Running `dwarfdump` and `atos`, and their I/O errors, are left out. Their output is given as `uuidProbe` and as the function `resolve`.
- `demangle_stream` is a foreign library. It is the parameter `demangle`, and its I/O errors are not modelled.
- UTF-8 decoding of tool output (strict and lossy) is not modelled. Text is `seq<char>`, and the report is bytes.
- `dbg!` writes only debugging output to standard error and is left out.
- `println!` is replaced by the returned sequence of printed lines. In `Run`, an out-of-range image index (the panic at `src/main.rs:121`) gives `IndexPanic` and drops the lines printed before it; `Render` and `Emitted` require it away with `Renderable`.
- Json.DecodeStruct: a record is read only from a JSON object. serde also accepts a JSON array for a struct, with fields by position and missing trailing ones defaulted; the model rejects it. serde reads object members in document order, so it reports the first bad member of the document, puts a type error before a missing required field, and rejects a repeated declared key. The model reads a map in declaration order: which error is reported can differ, and duplicate keys are not seen.
- Ips.Parse: the `No header found` branch is kept only to mirror the code. `splitn` always yields a first piece, and the contract proves that branch unreachable.
