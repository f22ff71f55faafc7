# Output capture of the range-filter test harness

The repository's test program (`test/test_main.c`) links the utility under
test with wrapped versions of `printf` and `fprintf`. Each wrapped call
formats its text into a 256-byte scratch buffer (`temporary_buffer`),
deletes every space from it with `remove_spaces`, and appends what is left
to one of two 256-byte capture buffers, `test_buffer_stdout` or
`test_buffer_stderr`. The tests then compare those buffers with expected
strings. `free_buffers` zeroes both capture buffers before each test.

This project models that capture component in Dafny:

- `CStrings` (`c_strings.dfy`): NUL-terminated buffers. `Strlen` and `CStr`
  give the string a buffer holds. `FindTerminator` and `StrCpy` are loops over arrays
  that model `strlen` and `strcpy`. `WriteFormatted` models the write that
  `vsnprintf` makes into a buffer of fixed size.
- `SpaceRemoval` (`remove_spaces.dfy`): `Strip` is the specification (the
  string with every `' '` filtered out), with its lemmas. `RemoveSpaces` is
  the in-place two-cursor loop over an `array<char>`, proved to leave exactly
  `SpacesRemoved(old buffer)` behind.
- `Capture` (`capture.dfy`): the class `CaptureBuffers` holds the three buffers as
  arrays. Two ghost strings record what the capture buffers hold, and
  `Valid()` says that each buffer is its string, a terminator, and zero bytes
  up to the end. `FreeBuffers`, `Fprintf` and `Printf` are the harness
  operations. `CaptureExample` is a client that shows what a test can read
  back: after `free_buffers`, printing `"2 "` and then `"1"` leaves `"21"` in
  the stdout buffer.

The formatter is abstract. A call is given the text the format string and
its arguments produce (a string with no NUL inside). The model keeps what
C99 `vsnprintf`, which every build other than `_WIN32` calls, does with that
text: it writes the first 255 characters at most, then a terminator, and
returns the length of the whole text.

## Model

| member | source | states |
|---|---|---|
| CStrings.Strlen | test/test_main.c:77 | the length of a buffer's string is the index of its first NUL: no NUL comes before it |
| CStrings.CStr | test/test_main.c:77 | the string a buffer holds has no NUL, and it is followed by the terminator |
| CStrings.StrlenOfTerminated | test/test_main.c:77 | a string written in front of a terminator is exactly what the buffer holds, whatever follows |
| CStrings.ZeroPadText | test/test_main.c:34-37 | a buffer holding a text and then only zero bytes holds that text as a C string |
| CStrings.ZeroPadAppend | test/test_main.c:77 | copying a text and its terminator over the terminator of a zero-padded buffer gives the zero-padded concatenation |
| CStrings.Truncated | test/test_main.c:71-72 | vsnprintf keeps a prefix of the text shorter than the buffer: the whole text when it fits, and exactly one character less than the buffer size when it does not |
| CStrings.FindTerminator | test/test_main.c:77 | the strlen loop returns the index of the first NUL |
| CStrings.StrCpy | test/test_main.c:77 | strcpy to an offset writes the source string and its terminator there, and changes no other byte |
| CStrings.WriteFormatted | test/test_main.c:71-72 | the formatter writes the kept prefix and a terminator at the start of the buffer and returns the length of the whole text |
| SpaceRemoval.Strip | test/test_main.c:53-60 | the result is never longer than the input |
| SpaceRemoval.StripMembers | test/test_main.c:56 | a character is in the result iff it is in the input and is not a space |
| SpaceRemoval.StripStep | test/test_main.c:56-59 | one more character read is appended to the result unless it is a space, as each pass of the loop does |
| SpaceRemoval.StripAppend | test/test_main.c:54-59 | stripping a concatenation strips each part in turn, so the kept characters stay in their original order |
| SpaceRemoval.StripSingle | test/test_main.c:56 | one character is dropped iff it is the space character |
| SpaceRemoval.StripSpaceFree | test/test_main.c:56 | a string with no space is left as it is |
| SpaceRemoval.StripIdempotent | test/test_main.c:55-59 | stripping the stripped string changes nothing |
| SpaceRemoval.StripMultiset | test/test_main.c:56 | only spaces are removed: every other character, tab and newline included, occurs as often as before |
| SpaceRemoval.StripLength | test/test_main.c:54-59 | the new length is the old length less the number of spaces |
| SpaceRemoval.SpacesRemovedShape | test/test_main.c:50-60 | after remove_spaces the buffer holds the stripped string with no space in it, and no byte at or past the old terminator changed |
| SpaceRemoval.SpacesRemovedIdempotent | test/test_main.c:55-59 | remove_spaces applied to its own output leaves the whole buffer unchanged |
| SpaceRemoval.RemoveSpaces | test/test_main.c:53-60 | the in-place loop, whose write cursor never passes its read cursor, leaves exactly the stripped string, its terminator and the untouched old bytes |
| Capture.Captured | test/test_main.c:71-74 | what one call appends has no space, fits in a buffer, and has no NUL when the formatted text has none |
| Capture.AppendAtEnd | test/test_main.c:77 | strcpy at strlen of a zero-padded buffer gives the old text followed by the new one, still zero-padded |
| Capture.CaptureBuffers.constructor | test/test_main.c:34-37 | the three static buffers start as 256 zero bytes, so both capture buffers hold the empty string |
| Capture.CaptureBuffers.FreeBuffers | test/test_main.c:44-47 | every byte of both capture buffers is 0 and both hold the empty string |
| Capture.CaptureBuffers.FormatStripped | test/test_main.c:71-74 | after formatting and remove_spaces the scratch buffer holds the space-stripped kept text, and the call yields the formatter's count |
| Capture.CaptureBuffers.Append | test/test_main.c:74-80 | the chosen capture buffer gets its old text followed by the stripped text, and the other buffer is unchanged |
| Capture.CaptureBuffers.Fprintf | test/test_main.c:66-84 | a stream other than stdout or stderr fails the assertion and changes nothing; otherwise that stream's text grows by the stripped text, the other buffer is unchanged, and the formatter's count is returned |
| Capture.CaptureBuffers.Printf | test/test_main.c:90-100 | the stdout text grows by the stripped text, the stderr buffer is unchanged, and the formatter's count is returned |

## Left out

- `__real_main`, the utility under test (argument checks and range filtering): its source is not part of this model. Two tests call it with argument lists alone and expect -1 and -2; the other two also redirect its input to data files, which are not part of this model either.
- Formatting itself (`vsnprintf` with a format string and variadic arguments): each call is given the formatted text instead. A negative return for an encoding error is not modelled.
- CStrings.WriteFormatted: follows C99 `vsnprintf`, as the build without `_WIN32` calls it. On `_WIN32` the source maps `vsnprintf` to `_vsnprintf` (test/test_main.c:10-13), which is not modelled: for a text of 256 characters or more it writes 256 characters with no terminator and returns 256 for a text of exactly that length and -1 for a longer one, after which `remove_spaces` reads past the end of the scratch buffer.
- CStrings.Truncated: states what C99 `vsnprintf` keeps (at most 255 characters, then a terminator); what `_vsnprintf` keeps on `_WIN32` (256 characters, no terminator) is not modelled, for the reason given for `WriteFormatted`.
- CStrings.WriteFormatted: requires a formatted text with no NUL inside, as do Capture.CaptureBuffers.FormatStripped, Capture.CaptureBuffers.Append, Capture.CaptureBuffers.Fprintf and Capture.CaptureBuffers.Printf. A text with a NUL in it (a `%c` given 0, say) is not modelled: the source would capture only the part before that NUL, while still returning the length of the whole text.
- Capture.CaptureBuffers.FormatStripped: requires a formatted text with no NUL inside, for the reason given for `WriteFormatted`.
- Capture.CaptureBuffers.Append: requires a formatted text with no NUL inside, for the reason given for `WriteFormatted`.
- Capture.CaptureBuffers.Fprintf: requires a formatted text with no NUL inside, for the reason given for `WriteFormatted`.
- Capture.CaptureBuffers.Printf: requires a formatted text with no NUL inside, for the reason given for `WriteFormatted`.
- Each `char` of the model's strings stands for one C `char`, that is one byte. A character that takes several bytes in the source's encoding is several `char`s here. Buffer sizes, `strlen`, the truncation of `vsnprintf` and its count are all measured in these units.
- Capture.CaptureBuffers.Fprintf: the count is a `nat`; the C `int` return and its overflow for texts longer than `INT_MAX` are not modelled.
- Capture.CaptureBuffers.Printf: the count is a `nat`, as for `Fprintf`.
- Capture.CaptureBuffers.FormatStripped: the count is a `nat`, as for `Fprintf`.
- CStrings.WriteFormatted: the count is a `nat`, as for `Fprintf`.
- Capture.CaptureBuffers.Fprintf: the source copies with no bounds check. The model requires that the old text, the appended text and the terminator fit in 256 bytes, so the buffer overflow the source would allow is not modelled.
- Capture.CaptureBuffers.Printf: requires the same room in the stdout buffer as `Fprintf`, for the same reason.
- Capture.CaptureBuffers.Append: requires the same room in the chosen buffer as `Fprintf`, for the same reason.
- Capture.AppendAtEnd: requires that the old text, the copied string and the terminator fit in the buffer, for the same reason.
- CStrings.StrCpy: requires that the copied string and its terminator fit in the destination, for the same reason.
- Capture.CaptureBuffers.Fprintf: a failed `assert_true` makes cmocka abandon the test; the model returns `AssertionFailed` with no state changed instead of leaving the test.
- `__wrap_scanf` and `__wrap___isoc99_scanf`: input redirection through `vfscanf` and a compiler builtin, with no logic of their own.
- The cmocka test cases and runner, `fopen`/`fclose`, `exit`, `strdup` and the `free_args` macro: test plumbing and memory management.
