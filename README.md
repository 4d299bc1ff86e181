# Gauche runtime pieces, modelled in Dafny

This project models four parts of the Gauche Scheme system and proves what
they promise:

- **The character-encoding conversion ports** (`ext/charconv/charconv.c`).
  - The registry of code-guessing procedures.
  - The input conversion port: its constructor with the priming read, and
    its filler, which converts the scratch buffer into the port buffer and
    slides the unconverted bytes to the front.
  - The output conversion port: its flusher, which converts and sends the
    scratch buffer to the remote on every round (`GLIBC_2_1_ICONV_BUG` is
    defined), and its closer.
  - The UCS4 bridge hooks. `chartoucs` unpacks UTF-8 in the original
    1-to-6-byte form of section 2 of RFC 2279.
  - The conversion engine (`jconv*`) is an abstract `Engine`. One step
    reports the bytes it consumed, the bytes it produced and one of four
    outcomes, and a reset may fail.
  - The remote port is either a chunked byte source or a log of the writes,
    flushes and closes it receives.
- **Cord string algorithms** (`gc/cord/cordxtra.c`). A cord is the sequence
  of its 8-bit characters. The model covers:
  - comparison;
  - character and substring search, including `CORD_str`'s rolling
    eight-byte window;
  - the buffer-filling callbacks;
  - the C-string conversions;
  - the extensible-cord buffer.
- **Runtime bookkeeping** (`src/core.c`):
  - the cond-expand feature lists;
  - the cleanup-handler list and its run-once flag;
  - the boot-stage guard;
  - exit codes.
- **Pattern-variable references** (`src/gauche/priv/macroP.h`): the word
  packing of `SCM_MAKE_PVREF` and its accessors, and the macro flag bits.

The code is modelled as it has been written.

- **Imperative code becomes classes and methods.** Code that updates state is
  modelled as a class:
  - `ConvInfo` and `RemotePort`;
  - `Registry`;
  - `FillData` and `ChrData`;
  - `ExtensibleCord`;
  - `CondFeatures`, `Cleanup` and `Runtime`.

  Each method is proved against a pure specification function, for example
  `FillSpec`, `FlushSpec`, `CloseOps`, `FirstMatch`, `AssocDelete`, `Calls`
  and `Apply`.
- **Pure code becomes functions and lemmas.** The PVREF macros and the UTF-8
  unpacking are examples.

Four behaviours of the code are worth stating plainly, because they are
easy to misread from the names or the comments:

- **Reset failure at end of input.** When the finishing sequence does not
  fit, `jconv_reset` fails and its answer lands in `result`, which is a
  `size_t`. The `result < 0` check can therefore never fire. No error is
  raised and the filler returns jconv_reset's failure code, a negative
  value, as its count. `ConvInput.FinishInput` models this with -1 standing
  for that code.
- **The filler's count.** The filler returns `bufsiz - outroom`. That is the
  fill level of the port buffer (`end` plus the bytes produced), not the
  number of bytes this call produced. The two agree only when the port
  buffer was empty.
- **`Scm_GuessCES`.** When the guessing procedure has no answer, the code
  returns its NULL unchanged (`GuessRegistry.Registry.GuessCES`). Only an
  unknown scheme raises an error there. The input-port constructor is the
  one that turns NULL into an error.
- **`ucstochar` without a context.** In a build that is not UTF-8 and has
  no conversion context, the code returns `SCM_CHAR_INVALID`, not the scalar
  value (`UcsBridge.UcsToChar`).

## Model

| member | source | states |
|---|---|---|
| ConvContext.SlideToFront | ext/charconv/charconv.c:182-183 | memmove to the front: the n bytes at `from` are at the front, in order, and the bytes after them are untouched |
| ConvContext.GetCESName | ext/charconv/charconv.c:51-63 | an unbound argument or #f gives the first supported encoding, a string gives itself, and any other value is the error naming the argument; it succeeds exactly when the value is not of another kind |
| ConvContext.ConversionSupported | ext/charconv/charconv.c:65-71 | true exactly when jconv_open finds an engine for (to, from) |
| GuessRegistry.EqualsIgnoreCaseIsEquivalence | ext/charconv/charconv.c:92 | case-insensitive name equality is reflexive, symmetric and transitive |
| GuessRegistry.EqualsIgnoreCaseLetters | ext/charconv/charconv.c:92 | two matching names differ only where both hold ASCII letters |
| GuessRegistry.FirstMatchMeaning | ext/charconv/charconv.c:87-96 | the lookup finds nothing exactly when no registered name matches; otherwise it finds the entry at the first matching position, with no match before it |
| GuessRegistry.RegisterShadows | ext/charconv/charconv.c:73-96 | after a registration, a name matching the new entry finds it, and every other name finds what it found before |
| GuessRegistry.Registry.Register | ext/charconv/charconv.c:73-85 | the new record is linked at the head of the chain |
| GuessRegistry.Registry.Find | ext/charconv/charconv.c:87-96 | the scan returns the first (newest) record whose name matches case-insensitively, or none |
| GuessRegistry.Registry.GuessCES | ext/charconv/charconv.c:430-436 | an unknown scheme is an error; otherwise the result is the procedure's answer on the sample, NULL included |
| ConvInput.ResetReturn | ext/charconv/charconv.c:143-159 | the value returned after jconv_reset is negative exactly when the reset failed; no error is raised |
| ConvInput.EffectiveBufsiz | ext/charconv/charconv.c:229 | a size of 0 or less becomes 1024, and a positive size is kept |
| ConvInput.MakeInputConversionPort | ext/charconv/charconv.c:212-276 | covers every path: a non-input port is an error; on the guessing path, an empty priming read gives the empty string port, a failed guess is an error, and a successful guess gives a port exactly when the guessed encoding converts to the target (otherwise the unsupported-pair error); every port keeps the primed bytes pending in its context, so no input is lost; the size defaults to 1024 |
| ConvInput.FillSpec | ext/charconv/charconv.c:126-204 | only end of input with nothing pending closes the remote, and only an owned one; at the end the count is the length of the finishing sequence, or negative when the reset fails; an illegal sequence keeps the pending bytes and reports the (at most 6) bytes from where the engine stopped; otherwise the count is `end` plus the bytes produced, and the bytes kept are exactly the input after the bytes the engine consumed |
| ConvInput.FinishInput | ext/charconv/charconv.c:138-160 | at end of input with nothing pending: the finishing sequence goes into the port buffer at `end` and the rest of it is unchanged; the owned remote is closed; the result is as FillSpec says |
| ConvInput.KeepUnconsumed | ext/charconv/charconv.c:182-183 | after the memmove, the pending bytes are the n unconsumed bytes, and the cursor stays inside the scratch buffer |
| ConvInput.ConvertStep | ext/charconv/charconv.c:164-171 | one jconv call over the pending bytes: the step is the engine's answer for those bytes, its output lies at `end` and nothing else in the port buffer changes |
| ConvInput.ConvertPending | ext/charconv/charconv.c:164-203 | the conversion part of the filler meets FillSpec: the result, the new shift state, the pending bytes kept at the front and the port buffer contents; it never closes the remote |
| ConvInput.InputFiller | ext/charconv/charconv.c:126-204 | the bytes read are taken from the remote in order, and there are none only when the scratch buffer is full or the remote is exhausted; result, shift state, pending bytes, port buffer and the remote's log (a close exactly when FillSpec says so) all match FillSpec |
| ConvInput.InputCloser | ext/charconv/charconv.c:206-210 | the engine is closed and the cursor and shift state are left alone |
| ConvOutput.FlushSpec | ext/charconv/charconv.c:324-388 | the rounds of the flusher as a value: each full-buffer round writes the scratch bytes and goes on with the rest of the input; an illegal sequence writes nothing; any other outcome writes once and stops; what is left unconverted is never longer than the input |
| ConvOutput.FlushSpecLeavesSuffix | ext/charconv/charconv.c:324-388 | a flush never stops on a full buffer, and what it leaves unconverted is a suffix of its input |
| ConvOutput.FlushSpecSendsPendingFirst | ext/charconv/charconv.c:324-388 | a flush only writes to the remote; a flush that does not fail writes something; the bytes already waiting in the scratch buffer are written first |
| ConvOutput.FlushRound | ext/charconv/charconv.c:334-370 | a round that goes on leaves the scratch buffer empty and no more input than before |
| ConvOutput.StalledFlushNeverReturns | ext/charconv/charconv.c:363-368 | an engine that reports a full buffer at full room without consuming anything keeps the loop in the same state after any number of rounds, and it is exactly an engine without progress |
| ConvOutput.FlushSpecRound | ext/charconv/charconv.c:341-387 | unfolds FlushSpec by one round for each outcome |
| ConvOutput.FlushOnce | ext/charconv/charconv.c:334-387 | one round: an illegal sequence sends nothing and keeps the pending bytes; any other outcome sends the whole scratch buffer and empties it; a full buffer continues with the rest of the plan |
| ConvOutput.OutputFlusher | ext/charconv/charconv.c:324-388 | the remote receives exactly the writes FlushSpec lists, in order; every non-error return leaves the scratch buffer empty and answers the count of input bytes taken (`len - inroom`); an illegal sequence is an error |
| ConvOutput.CloseOps | ext/charconv/charconv.c:299-322 | the writes of the closer: between one and four operations, always including a flush, and ending with the close when the remote is owned |
| ConvOutput.CloseOpsDeliver | ext/charconv/charconv.c:299-322 | closing writes the pending bytes and then the finishing sequence, flushes after the last write, and closes the remote exactly when it is owned |
| ConvOutput.SendPending | ext/charconv/charconv.c:305-308 | any bytes still in the scratch buffer are written, and the buffer is emptied |
| ConvOutput.SendFinish | ext/charconv/charconv.c:310-317 | the finishing sequence is written only when it is not empty |
| ConvOutput.OutputCloser | ext/charconv/charconv.c:299-322 | a failed reset is an error after the pending bytes were sent; otherwise the remote's log grows by CloseOps, the remote is closed exactly when it is owned, and the engine ends closed in its initial state |
| ConvOutput.MakeOutputConversionPort | ext/charconv/charconv.c:390-425 | a non-output port is an error and an unsupported pair is an error; otherwise the new context has an empty scratch buffer of the default or given size |
| UcsBridge.InitUcsConv | ext/charconv/charconv.c:546-569 | a UTF-8 build or one without multibyte characters opens no contexts; EUC-JP and Shift_JIS builds open one each way |
| UcsBridge.DecodeUtf8 | ext/charconv/charconv.c:507-533 | a lead byte below 0x80 is itself; lead bytes below 0xe0, 0xf0, 0xf8, 0xfc and 0xfe give values below 2^11, 2^16, 2^21, 2^26 and 2^31; the result is -1 exactly for 0xfe and 0xff |
| UcsBridge.EncodedLength | ext/charconv/charconv.c:507-533 | a 31-bit value takes 1 to 6 bytes in the reference encoder |
| UcsBridge.EncodeUtf8 | ext/charconv/charconv.c:507-533 | the reference encoder (section 2 of RFC 2279) produces as many bytes as EncodedLength says |
| UcsBridge.EncodeUtf8LeadByte | ext/charconv/charconv.c:507-533 | the lead byte of an n-byte encoding lies in the range chartoucs unpacks as n bytes, and every other byte is a continuation byte |
| UcsBridge.DecodeEncodeUtf8 | ext/charconv/charconv.c:507-533 | round trip: unpacking recovers every 31-bit value from its encoding, whatever follows it in the six-byte buffer |
| UcsBridge.Pad6 | ext/charconv/charconv.c:480-500 | the six-byte output buffer begins with the bytes jconv wrote |
| UcsBridge.CharToUcs | ext/charconv/charconv.c:478-536 | the invalid character gives -1; a UTF-8 build gives the character itself; no context gives -1; a full or short buffer is the implementation error; an illegal sequence gives -1; a complete conversion gives the code point unpacked from the output; outside UTF-8 every answer is -1 or a 31-bit value |
| UcsBridge.CharToUcsDecodesEncoding | ext/charconv/charconv.c:478-536 | when the context turns a character into the UTF-8 encoding of a code point, chartoucs answers that code point |
| UcsBridge.UcsToChar | ext/charconv/charconv.c:449-476 | a UTF-8 build gives the code point; no context gives SCM_CHAR_INVALID; a full or short buffer is the implementation error; an illegal sequence gives SCM_CHAR_INVALID; a complete conversion gives the character decoded from the output |
| UcsBridge.Utf8HooksRoundTrip | ext/charconv/charconv.c:449-485 | in a UTF-8 build the two hooks are inverse on every valid character |
| Cords.Strlen | gc/cord/cordxtra.c:264 | strlen is the position of the first NUL |
| Cords.Chars | gc/cord/cordxtra.c:456-464 | CORD_chars(c, i) is i copies of c |
| Cords.CatChar | gc/cord/cordxtra.c:76-86 | the result is x followed by c, one longer, NUL included |
| Cords.FromCharStar | gc/cord/cordxtra.c:261-271 | the result is the characters of the C string before its NUL (empty for an empty string) |
| Cords.FromCharStarOfTerminated | gc/cord/cordxtra.c:261-271 | a cord without NUL, terminated and read back, is itself |
| CordCompare.LexLessTotal | gc/cord/cordxtra.c:156-199 | the order the comparison follows is strict and total: never both ways, and exactly one way between different cords |
| CordCompare.LexLessTransitive | gc/cord/cordxtra.c:156-199 | the order is transitive |
| CordCompare.LexLessAfterPrefix | gc/cord/cordxtra.c:156-199 | a common prefix does not decide the order |
| CordCompare.Decided | gc/cord/cordxtra.c:156-199 | after an agreeing prefix, the first difference (a character, or where a cord ends) gives an answer whose sign is the order and which is 0 exactly for equal cords |
| CordCompare.Cmp | gc/cord/cordxtra.c:156-199 | an empty y gives 1 or 0, and an empty x gives -1; otherwise the sign of the result is the lexicographic order, and it is 0 exactly for equal cords |
| CordCompare.Segment | gc/cord/cordxtra.c:201-247 | the at most `len` characters from `start`, none past the end |
| CordCompare.Ncmp | gc/cord/cordxtra.c:201-247 | 0 exactly when the two segments of at most `len` characters agree, which includes both running out together; otherwise the sign of the result is their lexicographic order, so the one running out first is smaller |
| CordFill.FillData.FillProc | gc/cord/cordxtra.c:109-121 | stores c at the count, counts it, and stops exactly when the count reaches len |
| CordFill.FillData.BatchedFillProc | gc/cord/cordxtra.c:123-140 | copies the C string up to its NUL or until the count reaches len, whichever comes first, and stops exactly in the second case; the count never exceeds len; the NUL is stored uncounted; no other cell changes |
| CordFill.FillBufAsWritten | gc/cord/cordxtra.c:142-154 | with len 0, the first character is stored and the answer is 1 |
| CordFill.FillBufZeroLength | gc/cord/cordxtra.c:142-154 | asking for no characters of "a" stores 'a' and answers 1 |
| CordFill.FillBuf | gc/cord/cordxtra.c:142-154 | answers 1 exactly when len is non-zero and len characters from i were stored in buf; otherwise it answers 0 with what was left stored; nothing beyond len is written |
| CordFill.ToCharStar | gc/cord/cordxtra.c:249-259 | a fresh C string: the cord's characters, then NUL at index len |
| CordSearch.Strchr | gc/cord/cordxtra.c:340 | strchr: the first index of c in the C string, where the terminator counts, or none |
| CordSearch.ChrData.ChrProc | gc/cord/cordxtra.c:319-326 | stops exactly on the target, and otherwise moves the position on by one |
| CordSearch.ChrData.RchrProc | gc/cord/cordxtra.c:328-335 | stops exactly on the target, and otherwise moves the position back by one |
| CordSearch.ChrData.BatchedChrProc | gc/cord/cordxtra.c:337-349 | stops exactly when the target occurs in the string or is its terminator, with the position on the first occurrence; otherwise the position moves past the string |
| CordSearch.Chr | gc/cord/cordxtra.c:319-362 | on a cord fed one character at a time (a function cord, where NUL is an ordinary character): the least position at i or later holding c, or not found exactly when there is none |
| CordSearch.ChrInString | gc/cord/cordxtra.c:337-362 | on a cord that is one C string, never empty since "" becomes CORD_EMPTY (cordxtra.c:266): a NUL target is found at the terminator, one past the last character; any other character gives the least position at i or later holding it, or not found exactly when there is none |
| CordSearch.Rchr | gc/cord/cordxtra.c:364-375 | the greatest position at i or earlier holding c, or not found exactly when there is none |
| CordSearch.ShiftIn | gc/cord/cordxtra.c:404-413 | shifting a character into a word holding fewer than eight packs it after them |
| CordSearch.MaskKeeps | gc/cord/cordxtra.c:415-416 | the mask of a packed word's length keeps that word |
| CordSearch.PackedInjective | gc/cord/cordxtra.c:416 | two packed words of the same length are equal exactly when they pack the same characters |
| CordSearch.RollWindow | gc/cord/cordxtra.c:426-432 | shifting the next character in keeps the window: the masked word packs the candidate one place on |
| CordSearch.OccursInTwoParts | gc/cord/cordxtra.c:415-422 | an occurrence is its packed first characters together with the rest, as checked by CORD_ncmp |
| CordSearch.NoRoomNoOccurrence | gc/cord/cordxtra.c:401 | s cannot occur where it no longer fits |
| CordSearch.LoadWords | gc/cord/cordxtra.c:404-413 | the first loop packs the first startLen characters of s and of x from start, and builds the mask that keeps that many bytes |
| CordSearch.MatchesAt | gc/cord/cordxtra.c:415-422 | the match test holds exactly when s occurs at the candidate position |
| CordSearch.Str | gc/cord/cordxtra.c:383-434 | an empty s is found at start; otherwise the result is the least position at or after start where s occurs, or not found exactly when s occurs at none |
| CordEc.ExtensibleCord.FlushBuf | gc/cord/cordxtra.c:436-448 | the contents (cord, then buffered characters) do not change; the buffer ends empty; the buffered characters are appended to the cord, and an empty buffer changes nothing |
| CordEc.ExtensibleCord.AppendCord | gc/cord/cordxtra.c:450-454 | s comes after everything appended so far, buffered characters included |
| CordEc.CatCharStar | gc/cord/cordxtra.c:446 | the cord followed by the first len characters of the string |
| CoreFeatures.AssocDeleteMeaning | src/core.c:589 | deleting f's entries leaves f unlisted, leaves every other feature listed as before, and changes nothing when f was not listed |
| CoreFeatures.CondFeatures.AddFeature | src/core.c:560-571 | prepends the entry unless the feature is disabled, without looking for duplicates; no disabled feature becomes listed |
| CoreFeatures.CondFeatures.DisableFeature | src/core.c:573-591 | the feature is recorded as disabled and all its entries are dropped |
| CoreFeatures.CondFeatures.DeleteFeature | src/core.c:593-603 | all the feature's entries are dropped, and it is not disabled |
| CoreFeatures.DisableThenAdd | src/core.c:573-591 | a disabled feature stays unlisted when it is added again |
| CoreFeatures.DeleteThenAdd | src/core.c:593-603 | a deleted feature added again is listed at the head, unless it had been disabled |
| CoreCleanup.Calls | src/core.c:488-491 | one call per handler, in list order (newest first) |
| CoreCleanup.DeleteStepAsWritten | src/core.c:446-459 | one iteration of the loop as written: it goes on exactly while y is a record other than the handle, and then from the same record |
| CoreCleanup.DeleteRunAsWritten | src/core.c:446-459 | after any number of iterations the loop as written is still at the head, or has returned because the list was empty or the handle was its head (which is then unlinked) |
| CoreCleanup.IndexOf | src/core.c:446-459 | the first position of the record named by the handle, with none before it, or the list's length |
| CoreCleanup.DeleteAsWrittenSpins | src/core.c:446-459 | as written, the loop is still scanning the head after any number of rounds, for any handle other than the head of a non-empty list |
| CoreCleanup.DeleteOlderHandlerSpins | src/core.c:446-459 | deleting the older of two handlers never returns |
| CoreCleanup.Cleanup.AddCleanupHandler | src/core.c:433-441 | the new record is prepended and returned, with a handle no other record has |
| CoreCleanup.Cleanup.DeleteCleanupHandler | src/core.c:443-459 | the named record is unlinked and the others keep their order; any other value leaves the list unchanged |
| CoreCleanup.Cleanup.RunCleanup | src/core.c:483-497 | the first call clears `dirty` and calls every handler newest first; later calls do nothing |
| CoreCleanup.CleanupTwice | src/core.c:483-497 | a second cleanup makes no calls |
| CoreRuntime.Apply | src/core.c:157-298 | Scm_Init runs the initialisers exactly from the first stage; no call returns to the first stage |
| CoreRuntime.InitRunsAtMostOnce | src/core.c:152-159 | over any sequence of calls the initialisers run at most once, and never once booting is past the first stage |
| CoreRuntime.Runtime.Init | src/core.c:157-283 | does nothing past the first stage; otherwise runs the initialisers once and ends initialized |
| CoreRuntime.Runtime.SetRuntimeReplState | src/core.c:295-298 | the state becomes FULL_REPL or MINI_REPL as the flag says |
| CoreRuntime.ExitCode | src/core.c:475 | EXIT_CODE is the low byte, in [0, 255] |
| CoreRuntime.ObjToExitCode | src/core.c:499-512 | #t gives 0, #f gives 1, an integer gives its low eight bits and anything else gives 70; always in [0, 255] |
| CoreRuntime.ExitCodeOfObj | src/core.c:475-512 | EXIT_CODE leaves every exit code from a Scheme value unchanged |
| MacroPvref.MakePvref | src/gauche/priv/macroP.h:129-130 | every built reference passes SCM_PVREF_P |
| MacroPvref.PvrefLevel | src/gauche/priv/macroP.h:126 | the level is below 256 |
| MacroPvref.PvrefCount | src/gauche/priv/macroP.h:127 | the count is below 256 |
| MacroPvref.PvrefRoundTrip | src/gauche/priv/macroP.h:124-130 | for in-range level and count, both come back out, and bits 8-15 are zero |
| MacroPvref.PvrefInjective | src/gauche/priv/macroP.h:129-130 | distinct in-range (level, count) pairs give distinct words |
| MacroPvref.MacroFlagsDistinctBits | src/gauche/priv/macroP.h:66-72 | SCM_MACRO_IDENTIFIER and SCM_MACRO_PARAMETERIZABLE are distinct single bits |

## Findings

| source | as written | input that shows it | evidently intended | confidence | as-written member | corrected member |
|---|---|---|---|---|---|---|
| src/core.c:446-459 | the `while (y)` loop of Scm_DeleteCleanupHandler never advances `y` (nor `x`) | two handlers registered; delete the older one, which is not at the head | advance `x` and `y` along the list until `y` is the handle or NULL, then unlink it | high; not executed | CoreCleanup.DeleteAsWrittenSpins | CoreCleanup.Cleanup.DeleteCleanupHandler |
| gc/cord/cordxtra.c:142-154 | with len 0, CORD_fill_proc stores the first character and returns 1, because the count 1 is at least len | x = "a", i = 0, len = 0 | answer 0 and write nothing, as the function's comment says (1 only for a non-zero len) | medium; not executed | CordFill.FillBufZeroLength | CordFill.FillBuf |

## Left out

- The conversion engine (`jconv`, `jconv_reset`, `jconv_open`, `jconv_close`, `jconv_ucs4_to_utf8`) lives in jconv.c, which is not part of this model. It is the abstract `Engine`. `WellFormed` says it never consumes more than it is given and never produces more than the room it is given.
- `SCM_CHAR_PUT`, `SCM_CHAR_GET`, `SCM_CHAR_NBYTES` and `UCS2UTF_NBYTES` are parameters of the bridge hooks, because gauche/char.h is not part of this model.
- Port machinery is not modelled: `Scm_MakeBufferedPort`, `Scm_MakeInputStringPort`, `conv_name`, `conv_ready` and `conv_fileno`. So are the port records themselves. The filler sees the port buffer as an array and the position of its free room. `EmptyStringPort` stands for the string port over "".
- `Scm_Error` is not modelled as a non-local exit. Each error is a result value carrying the error's kind, and the state at that point is what the code leaves behind.
- Mutexes (`guess.mutex`, `ucsconv.mutex`, `cond_features.mutex`) are left out: everything is sequential.
- The hook installation and the extension initialisation in Scm_Init_libcharconv are left out, apart from opening the two UCS contexts. `Scm_UcsToCharHook` and `Scm_CharToUcsHook` are plain function calls here.
- UcsBridge.CharToUcs and UcsBridge.UcsToChar: each conversion starts from the initial shift state instead of carrying the context's state from call to call. The source relies on the internal encodings being stateless (charconv.c line 445), so the state after a call never differs from the initial one.
- UcsBridge.Pad6: the bytes of the six-byte output buffer after those jconv wrote are uninitialised in the source. They are taken as zero, and a well-formed encoding never reads them.
- ConvOutput.OutputFlusher: requires `OutputProgress`, meaning that at full room a full-buffer outcome has consumed something. Without it the loop may not terminate (`ConvOutput.StalledFlushNeverReturns`), so the model does not cover that case.
- ConvInput.InputFiller: requires that the port buffer has the conversion buffer's size, which the constructor sets up (`bufrec.size = cinfo->bufsiz`).
- Chunked reads: `Scm_Getz` may return fewer bytes than asked for. It is modelled as returning at most the head chunk of the remote; a negative `nread` (a read error) is not modelled.
- `CORD_iter5`, `CORD_riter4` and `CORD_pos` (with the cord tree, `CORD_cat`, `CORD_substr` and `CORD_len`) are not part of this model. A cord is its character sequence. The model takes `CORD_iter5` to hand a cord that is one C string to the batched callback from position `i`, and the characters of a function cord to the per-character callback one at a time. Fill and `CordSearch.Chr` use the per-character path; `CordSearch.ChrInString` uses the batched one.
- CordCompare.Cmp: the source compares characters one at a time with plain `char` subtraction, which may be signed, but whole strings with `strcmp`/`strncmp`, which compare as unsigned. The model compares unsigned 8-bit characters throughout. It answers the difference of the first differing characters and does not model the magnitude `strcmp` returns.
- CordCompare.Ncmp: same as Cmp for the sign and the magnitude of the result.
- CordSearch.Chr: a concatenation that mixes C-string and function leaves is not modelled. With a NUL target, the batched callback stops at the terminator of the first C-string leaf it reaches, so on such a cord the source's answer depends on the tree. `Chr` covers a function cord and `ChrInString` covers a single C string.
- CordSearch.Rchr: requires `i < |x|`. The source hands `i` to `CORD_riter4`, which is not part of this model, and never looks past the end.
- CordSearch.Str: `unsigned long` is taken as 8 bytes, and a word is modelled as its sequence of 8 bytes rather than as a 64-bit integer. CORD_str only shifts by whole bytes, ors in a byte and masks whole bytes. For a pattern that is not a C string, the first characters come from `CORD_to_char_star(CORD_substr(s, 0, 8))`; the model takes the first characters of `s`.
- CordFill.FillData.BatchedFillProc: requires `count < len`. `CORD_iter5` never calls it after a stop; the only other way to reach it is a zero `len`, which the finding above covers.
- CordEc.ExtensibleCord: the `CORD_ec` record, `CORD_BUFSZ` and the `CORD_ec_append` macro are in ec.h, which is not part of this model. The buffer's size is the length of `buf`. `CORD_cat_char_star` and `CORD_cat` (cordbase.c) are sequence concatenation. GC allocation failure (`OUT_OF_MEMORY`) is not modelled.
- cordxtra.c's file-backed cords (`CORD_from_file*`, the lazy-file cache, `CORD_put`) are left out, because they rely on stdio.
- Other parts of src/core.c are left out: the initialisers that `Scm_Init` calls, the GC and finalizer hooks, the atomic helpers, `Scm_Panic`, `Scm_Abort`, `Scm_Exit`, `init_cond_features`, `Scm_GetFeatures` and `Scm_SimpleMain`. These are foreign calls, process exit and build tables.
- CoreCleanup.Cleanup.RunCleanup: does not model `Scm_VMFlushDynamicHandlers` and `Scm_FlushAllPorts`. The handlers' calls are returned as a sequence instead of being made.
- CoreRuntime.RuntimeState: the order of `ScmRuntimeState` is declared in gauche.h, which is not part of this model. Only "INITIALIZING comes first" is relied on.
- MacroPvref: words are 64 bits. Levels and counts of 256 or more spill into the neighbouring field, as they do in the source; the round trip is stated for in-range values.
- src/gauche/priv/writerP.h and src/test-extra.c hold declarations and a test `main` with nothing to model.
