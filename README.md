# CFloor: header handling and configuration parsing, modelled in Dafny

CFloor is a small HTTP server written in C. This project models two of its parts and proves properties of them:

- **`src/headers.c`** holds the request-header table and the two header parsers:
  - `headers_find`, `headers_get` and `headers_mod` work on an ordered list of key/value entries. Lookup is by exact key match. `headers_mod` overwrites an existing key or appends a new one.
  - `headers_parse` reads one `Key: value` line: it cuts at the first `:` and trims the spaces around the value, and an empty line ends the header block.
  - `headers_metadata` splits the request line with `strtok` into method, target and version. It then cuts the target at `#` and `?`.
- **`src/config.c`** holds `config_parse`:
  - a character-level tokeniser with a 128-byte token buffer;
  - a state machine over the tokens that builds binds, their optional ssl block, their sites and the sites' handlers;
  - a final validation pass that checks required settings and gives every handler its site's document root.

## Files and modules

- **`wrappers.dfy`** (`Wrappers`): `Option`.
- **`cstrings.dfy`** (`CStrings`): the C string functions the core relies on.
  - A buffer is a `seq<char>` that ends in NUL.
  - It models what `strlen` and `strcmp` read (`CStr`, `UpToNul`) and glibc `strtok` with one delimiter (`Strtok`). `Strtok` skips leading delimiters, writes NUL over the delimiter that ends the token, and remembers where to resume.
- **`headers.dfy`** (`Headers`):
  - The table is a class `HeaderTable` whose field `entries` its methods update.
  - `Find`, `Get` and `Mod` are proved against the specification functions `IndexOf`, `Lookup` and `Upsert`.
  - `Parse` models `headers_parse`. It copies the value into an `array<char>` and trims it there: a shift down (`memmove`), then a NUL after the last non-space. It is proved against `ParseHeaderLine`.
- **`request_line.dfy`** (`RequestLine`): `headers_metadata` on a buffer model of its `strtok` calls.
  - `Metadata` is what the C code computes, including its undefined behaviour. `MetadataSpec` characterises it in terms of the words of the line.
  - `MetadataIntended` is the evident intent (see Findings).
- **`config_model.dfy`** (`ConfigModel`): the configuration values, the parser states, and one step of the state machine.
  - The values are `Bind`, `Site`, `Handler` and `Ssl`.
  - `Step` is one step of the state machine and `Run` runs it over a token sequence.
  - The C parser's `currentBind`, `currentSite` and `currentHandler` pointers always point at the last element appended. The model therefore edits the last element.
- **`config_lexer.dfy`** (`ConfigLexer`): the tokeniser as a specification (`Lex`), and its laws.
- **`config_validate.dfy`** (`ConfigValidate`): the validation pass.
  - `Validated` is the specification.
  - `ValidateConfig`, `ValidateBind` and `ValidateSite` are the three nested loops, each proved equal to it.
- **`config_parse.dfy`** (`ConfigParse`): `config_parse` on a whole file.
  - `Parse` is the specification.
  - `ParseConfig` is the character loop over a `new char[128]` token buffer, proved equal to `Parse`.
- **`config_print.dfy`** (`ConfigPrint`): a printer for the configuration syntax, and the round trip `ParsePrinted`. Parsing a printed configuration rebuilds exactly the printed binds, ssl settings, sites, host names, document roots, handlers and index files, in order, and then applies the validation pass.

`ssl: bool` stands for the `SSL_SUPPORT` compile-time switch.

## Model

| member | source | states |
|---|---|---|
| CStrings.CStr | src/headers.c:143-148 | the string strlen/strcmp read from a position has no NUL and ends at the buffer's next NUL |
| CStrings.UpToNul | src/headers.c:79-91 | a byte string read as a C string is its longest NUL-free prefix, cut at the first NUL |
| CStrings.Strtok | src/headers.c:129-145 | strtok keeps the buffer length and terminator, and returns a token start at or after the scan position with a resume point after it |
| CStrings.StrtokToken | src/headers.c:129-145 | strtok returns NULL exactly when only delimiters remain; otherwise the token is the first delimiter-free run and the rest of the string resumes after it |
| CStrings.StrtokFrame | src/headers.c:143-145 | strtok writes only inside the C string it scans |
| Headers.IndexOf | src/headers.c:7-13 | the index is the first entry whose key matches exactly, or -1 exactly when no entry has the key |
| Headers.LookupFinds | src/headers.c:15-20 | headers_get returns NULL exactly when no entry has the key, and otherwise a value stored under that key |
| Headers.LookupDistinct | src/headers.c:15-20 | with distinct keys, the value returned for a key is v exactly when (key, v) is in the table |
| Headers.UpsertAppends | src/headers.c:22-43 | an absent key is appended as the last entry, earlier entries unchanged, and its index is the old length |
| Headers.UpsertOverwrites | src/headers.c:22-43 | a present key is overwritten at its index, with the length and all other entries unchanged |
| Headers.UpsertLookup | src/headers.c:22-43 | after headers_mod the key reads back the new value, and every other key reads as before |
| Headers.UpsertDistinct | src/headers.c:22-43 | headers_mod preserves distinct keys |
| Headers.UpsertIdempotent | src/headers.c:22-43 | installing the same pair twice equals installing it once |
| Headers.HeaderTable.Find | src/headers.c:7-13 | the linear scan returns IndexOf of the entries |
| Headers.HeaderTable.Get | src/headers.c:15-20 | returns Lookup of the entries (None for NULL) |
| Headers.HeaderTable.Mod | src/headers.c:22-43 | the entries become Upsert of the old entries, the returned index is where the key now is, and distinct keys are preserved |
| Headers.HeaderTable.Parse | src/headers.c:45-113 | an empty line gives END and a line without ':' gives PARSE_ERROR, table unchanged; otherwise the parsed pair is upserted and its index returned |
| Headers.ParseHeaderLine | src/headers.c:45-91 | END exactly for the empty line, malformed exactly when there is no ':', otherwise a key without ':' or NUL |
| Headers.FindColon | src/headers.c:63-70 | finds a ':' exactly when the line has one, at the end of the colon-free prefix |
| Headers.CopyAndTrimValue | src/headers.c:79-110 | the value buffer ends up holding the trimmed C string of the bytes after the colon |
| Headers.TrimInPlace | src/headers.c:95-110 | the buffer stays terminated and holds the trimmed form of the string it held |
| Headers.FirstNonSpace | src/headers.c:95-101 | returns the length of the leading run of spaces |
| Headers.ShiftDown | src/headers.c:102-104 | memmove moves the string and its terminator down by shift and leaves the rest of the buffer alone |
| Headers.EndAfterLastNonSpace | src/headers.c:105-110 | the string then ends right after its last non-space character |
| Headers.TrimValueFrames | src/headers.c:95-110 | a value with a non-space is its trimmed form framed by spaces on both sides, and the trimmed form neither starts nor ends with a space |
| Headers.TrimValueUnframes | src/headers.c:95-110 | trimming n spaces + r + m spaces gives back r (inverse of framing) |
| Headers.TrimValueIdempotent | src/headers.c:95-110 | trimming twice equals trimming once |
| Headers.ParseHeaderLineRoundTrip | src/headers.c:45-113 | a line key + ":" + spaces + value + spaces reads back exactly key and value |
| Headers.ParseSplitLine | src/headers.c:60-91 | the key is the text before the first ':' and the value the trimmed C string after it |
| Headers.HeaderTestFirstLine | src/test.c:244-245 | "test:  Hello World  " parses to key "test", value "Hello World" |
| Headers.HeaderTestThirdLine | src/test.c:248-249 | "test2: Hello World2" parses to key "test2", value "Hello World2" |
| Headers.HeaderTestTable | src/test.c:239-253 | "blablabla" is malformed, "" ends the block, the two fields go to indices 0 and 1, and "test" reads "Hello World" |
| RequestLine.MethodOf | src/headers.c:151-160 | a method is recognised exactly for GET, POST and PUT |
| RequestLine.VersionOf | src/headers.c:162-168 | a version is recognised exactly for HTTP/1.0 and HTTP/1.1 |
| RequestLine.SplitTokensWords | src/headers.c:129-141 | the four strtok calls succeed exactly when the line has three space-separated words, and leave those words readable at increasing positions |
| RequestLine.SingleSpacedLine | src/headers.c:129-141 | on "a t v" with single spaces the tokens are found where they stand and read a, t and v |
| RequestLine.CutTargetNull | src/headers.c:143-145 | one of the two target strtok calls returns NULL exactly when the hash token (the target after its leading '#'s, up to the next '#') is empty or all '?' |
| RequestLine.CutTargetPath | src/headers.c:143-149 | the path read is the hash token (the target after its leading '#'s, up to the next '#') after its own leading '?'s, up to the next '?'; writes stay inside the target |
| RequestLine.CutTargetQuery | src/headers.c:146-149 | when the hash token (the target after its leading '#'s, up to the next '#') does not begin with '?', the query is the text after its first '?' |
| RequestLine.HashTokenQuery | src/headers.c:144-149 | from a hash token that does not begin with '?', the second strtok succeeds and the query is the text after the token's first '?' |
| RequestLine.Assemble | src/headers.c:151-185 | the result is success exactly when method and version are recognised, and then carries them with the path and query |
| RequestLine.MetadataSpec | src/headers.c:127-186 | PARSE_ERROR unless there are exactly three words; a NULL dereference exactly when the hash token (the target after its leading '#'s, up to the next '#') is empty or all '?'; otherwise success iff method and version are recognised, with the path read from the hash token after its leading '?'s and, when the hash token does not begin with '?', the query after its first '?' |
| RequestLine.SplitTarget | src/headers.c:143-149 | the intended split: the part before '#' is path + "?" + query, or the path alone when it has no '?' |
| RequestLine.SplitTargetRoundTrip | src/headers.c:143-149 | path + "?" + query + "#" + fragment splits back into path and query |
| RequestLine.SplitTargetPlainPath | src/headers.c:143-149 | a target without '?' and '#' is all path, with an empty query |
| RequestLine.MetadataIntended | src/headers.c:127-186 | never dereferences NULL; succeeds exactly for three words with recognised method and version |
| RequestLine.MetadataAgreesWithIntended | src/headers.c:127-186 | on every line whose target begins with neither '#' nor '?', the code as written equals the intended reading |
| RequestLine.LeadingFragmentReadsPath | src/headers.c:143-149 | a target "#" + x (x without '#' or '?') is read as path x with an empty query; the intended reading gives an empty path |
| RequestLine.HashOnlyTargetDereferencesNull | src/headers.c:143-144 | a target made only of '#' makes strtok return NULL, which strlen then dereferences; the intended reading gives an empty path |
| RequestLine.LeadingQueryReadsVersion | src/headers.c:145-149 | on a single-spaced line, for a target "?x" the code sets path x and reads the query past x's terminator, which yields the version string |
| RequestLine.LeadingQueryToken | src/headers.c:144-149 | from a hash token "?x", strtok skips the '?', the path is x and the query pointer lands one past x's terminator |
| RequestLine.LeadingQueryIntended | src/headers.c:145-149 | the intended reading of "?x" is an empty path with query x |
| ConfigModel.SplitAddr | src/config.c:139-170 | the port is exactly the text after the first ':', and the host is the text before it, with "*" read as "0.0.0.0" |
| ConfigModel.SplitAddrJoin | src/config.c:140-170 | host + ":" + port splits back into host and port when the host has no ':' and is not "*" |
| ConfigModel.SplitAddrWildcard | src/config.c:149-150 | the host "*" becomes "0.0.0.0" |
| ConfigModel.Step | src/config.c:99-507 | a token is accepted exactly when the grammar table Accepts allows it in the current state, and every state reached has the current bind, site, handler and ssl block it uses |
| ConfigModel.StepBind | src/config.c:100-246 | the top-level and bind states accept exactly the tokens of the grammar; "ssl" only with SSL support and no earlier ssl block |
| ConfigModel.StepSsl | src/config.c:247-311 | the ssl states accept exactly "{", "key", "cert", "}", "=" and any value, where the grammar has them |
| ConfigModel.StepSite | src/config.c:313-413 | the site states accept exactly "{", "handler", "hostname", "alias", "root", "}", "=" and any value, where the grammar has them |
| ConfigModel.StepHandler | src/config.c:414-504 | the handler states accept exactly their tokens; only "file"/"cgi" as a type; an index only in a file handler |
| ConfigModel.Run | src/config.c:84-517 | a run that accepts every token ends in a well-formed parser state |
| ConfigModel.RunAppend | src/config.c:84-517 | running a + b is running a, then b from where a stopped |
| ConfigModel.RunFailsOnPrefix | src/config.c:99-507 | once a token is rejected, no later token changes the outcome |
| ConfigLexer.Lex | src/config.c:84-94 | every token is non-empty, whitespace-free and shorter than 128 characters; after trailing whitespace nothing is pending |
| ConfigLexer.LexFailureSticks | src/config.c:510-514 | a too-long token rejects the file whatever follows |
| ConfigLexer.LexExtends | src/config.c:84-517 | reading more input only appends tokens |
| ConfigLexer.LexRun | src/config.c:509-516 | characters without whitespace gather into the pending token |
| ConfigLexer.LexLongRun | src/config.c:510-514 | a run of 128 or more non-whitespace characters makes the tokeniser fail |
| ConfigLexer.LexRunGrows | src/config.c:509-516 | the pending token grows by one for each non-whitespace character |
| ConfigLexer.WordThenSpace | src/config.c:85-94 | a word followed by whitespace becomes one more token |
| ConfigLexer.LexUnwords | src/config.c:84-94 | words printed with a space after each are read back as exactly those tokens |
| ConfigLexer.LexPrinted | src/config.c:84-94 | the tokens of printed words are those words, nothing pending |
| ConfigValidate.Validated | src/config.c:525-574 | validation succeeds exactly when every ssl block (with SSL support) has key and cert, every site a root and every handler a type; the result has every handler's document root set to its site's root |
| ConfigValidate.ValidatedOnlyFillsRoots | src/config.c:553-566 | validation changes nothing but the handlers' document roots |
| ConfigValidate.ValidatedIdempotent | src/config.c:525-574 | a validated configuration validates again to itself |
| ConfigValidate.ValidateSite | src/config.c:543-573 | the site loop fails exactly for a missing root or an untyped handler, and otherwise fills the roots |
| ConfigValidate.ValidateBind | src/config.c:526-573 | the ssl checks and site loop of one bind agree with the specification |
| ConfigValidate.ValidateConfig | src/config.c:525-576 | the nested loops compute exactly Validated |
| ConfigParse.Parse | src/config.c:84-576 | a configuration returned is validated: complete, with every handler carrying its site's root |
| ConfigParse.ParseConfig | src/config.c:73-576 | the character loop with its token buffer returns exactly Parse of the input |
| ConfigParse.TokenText | src/config.c:94 | the token in the buffer is read as the C string up to the NUL written after it |
| ConfigParse.EndToken | src/config.c:85-99 | a finished token is NUL terminated in the buffer without changing its characters, and the switch then takes exactly one more step of the run on it |
| ConfigParse.CharRejected | src/config.c:509-513 | a character that would make the token MAX_TOKEN_LENGTH long makes config_parse return NULL |
| ConfigParse.TokenRejected | src/config.c:85-507 | a token the switch rejects when whitespace ends it makes config_parse return NULL |
| ConfigParse.Finish | src/config.c:518-576 | at end of input a parser not at top level gives NULL, and otherwise the validation pass decides the result |
| ConfigParse.RejectedToken | src/config.c:99-507 | if the tokens of a prefix are rejected, the whole file is |
| ConfigParse.TrailingTokenIgnored | src/config.c:84-92 | characters after the last whitespace are never handed to the parser |
| ConfigParse.LongTokenRejected | src/config.c:510-514 | a token of 128 or more characters makes config_parse return NULL |
| ConfigParse.FirstTokenMustBeBind | src/config.c:100-105 | a file whose first token is not "bind" is rejected |
| ConfigPrint.RunIndexFiles | src/config.c:467-504 | index properties append their files to a file handler in order |
| ConfigPrint.RunType | src/config.c:446-466 | a type property sets the handler's type |
| ConfigPrint.RunHandler | src/config.c:322-350 | a printed handler is appended, exactly as printed, to the current site |
| ConfigPrint.RunHandlers | src/config.c:322-350 | printed handlers are appended in order |
| ConfigPrint.RunHostnames | src/config.c:351-392 | hostname properties append to the site's host names in order |
| ConfigPrint.RunRoot | src/config.c:393-412 | a root property sets the site's document root |
| ConfigPrint.RunSite | src/config.c:186-213 | a printed site is appended, exactly as printed, to the current bind |
| ConfigPrint.RunSites | src/config.c:186-213 | printed sites are appended in order |
| ConfigPrint.RunSsl | src/config.c:216-311 | with SSL support, a printed ssl block becomes the bind's ssl settings |
| ConfigPrint.RunBindOpen | src/config.c:100-182 | "bind host:port {" appends a bind with that address and opens it |
| ConfigPrint.RunBind | src/config.c:100-246 | a printed bind is appended exactly as printed |
| ConfigPrint.RunBinds | src/config.c:84-517 | printed binds are read back in order, ending at top level |
| ConfigPrint.ParsePrinted | src/config.c:84-576 | parsing a printed configuration gives exactly what validation makes of it |
| ConfigPrint.RunSslUnsupported | src/config.c:236-240 | without SSL support, the run stops at the first printed ssl block |
| ConfigPrint.SslTokenRejected | src/config.c:216-240 | without SSL support, the token "ssl" inside a bind is an error |
| ConfigPrint.SslNeedsSupport | src/config.c:236-240 | without SSL support, a configuration with an ssl block is rejected |
| ConfigPrint.SampleConfigParses | src/test.c:272-311 | a configuration carrying every value testConfig checks, as the printer writes it, reads back as one bind (two with SSL support): address, port, ssl files, host name, root, file handler with index.html, and the handler's root "/" |

## Left out

- Allocation failures (`malloc`, `realloc` and `strclone` returning NULL) are not modelled: allocation always succeeds. The `HEADERS_ALLOC_ERROR` results and config_parse's NULL on allocation failure are absent.
- Memory management is not modelled: `freeEverything`, `replaceOrAdd`, `headers_free` and `config_destroy` only release memory.
- The configuration is modelled as nested values. The C code builds pointer-linked structs, and "current" pointers always point at the most recently appended bind, site or handler. The model edits that last element instead, so aliasing is not represented.
- Reading the file with `fgetc` is modelled as a sequence of characters. Error messages and the line counter, which only feed `error(...)`, are left out.
- The `handler` function pointer that validation sets follows from the handler's type (file or cgi) and is not stored separately.
- In C the handler settings are a union. The model keeps index files and the document root in their own fields, so the overlap of file and cgi settings in memory is not represented.
- Until the address token is read, a bind's `addr` and `port` are NULL in C. The model uses empty strings; no complete parse can observe them.
- The logging fields of `struct config`, which the server's test inspects, are never set by `config_parse`. They are not modelled.
- `config_getNetworkingConfig` and `config_getHandler` have empty bodies in the source and are not modelled.
- `headers_metadata` allocates the path and query buffers but never copies into them. The model records the strings the code measures (`strlen` of `_path` and `_queryString`), not the uninitialised buffer contents.
- The check `length < 0` in headers_parse is on an unsigned `size_t` and can never fire, so it has no counterpart in the model.
- Headers.IndexOf: `headers_find` compares keys with `strcmp`; the model compares whole strings. The two agree on NUL-free keys, which are the only keys `headers_parse` produces (`ParseHeaderLine` ensures it). A key with an embedded NUL passed directly to `Find`, `Get` or `Mod` is compared whole, not up to its first NUL.
- The printer in `config_print.dfy` writes `hostname` (never `alias`) and never writes the wildcard host `*`. `SplitAddrWildcard` covers the wildcard separately.
- The configuration files testConfig reads (`tests/test.conf`, `tests/test-with-ssl.conf`) are not part of this model, so their exact text (for example `*:80` against `0.0.0.0:80`) is not modelled. ConfigPrint.SampleConfigParses parses the printed form of a configuration carrying the values the test checks.
- ConfigPrint.ParsePrinted: it covers configurations the printer can write, where handlers have no document root before validation.

## Findings

| source | as written | input that shows it | evidently intended | confidence | as-written member | corrected member |
|---|---|---|---|---|---|---|
| src/headers.c:143-144 | `strtok(_path, "#")` returns NULL for a target made only of `#`, and `strlen(_path)` then dereferences NULL | `GET # HTTP/1.1` | an empty path with an empty query | high; not executed | RequestLine.HashOnlyTargetDereferencesNull | RequestLine.MetadataIntended |
| src/headers.c:145-149 | for a target starting with `?`, `strtok(_path, "?")` skips the `?`. The path becomes the query text, and `_path + strlen(_path) + 1` points past the target's terminator, into the version token (with any extra spaces before it) | `GET ?a=1 HTTP/1.1` gives path `a=1` and query `HTTP/1.1` | an empty path with query `a=1` | high; not executed | RequestLine.LeadingQueryReadsVersion | RequestLine.LeadingQueryIntended |
| src/headers.c:143-149 | `strtok(_path, "#")` skips leading `#`s, so a target that is only a fragment yields the fragment's text as the path | `GET #abc HTTP/1.1` gives path `abc` | an empty path with an empty query | high; not executed | RequestLine.LeadingFragmentReadsPath | RequestLine.MetadataIntended |
