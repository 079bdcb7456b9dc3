# ucall: HTTP framing and JSON-RPC request validation

This project models two parts of the ucall JSON-RPC server library in Dafny:

- **The HTTP/1.x protocol adapter `http_protocol_t`.** It decides when a request has fully
  arrived, using the `Content-Length` header plus the offset of the body. It picks the
  method, path, the three recognised headers and the body out of the header block. It frames
  each response behind a fixed 78-byte preamble and patches the body length into that
  preamble in place.
- **The request helpers of `parse.hpp`.**
  - `scratch_space_t`: fixed-capacity buffers that build JSON Pointers to a call's
    parameters and hold the printed integer id.
  - `find_callback`: the JSON-RPC 2.0 validation chain and the callback lookup.
  - `round_up_to` and the older `strip_http_headers`.

Each core file takes the form it has in the source:

- Stateful objects are classes that update their fields in place: `Http.HttpProtocol`,
  `JsonRpc.ScratchSpace`, and the output side of the exchange pipes, `Buffers.OutputPipe`.
- Header scanning, pointer writing and callback search are methods with loops or buffer
  copies. Each is proved against a specification function.
- Validation, rounding and stripping are pure functions with lemmas.

Files, one module each:

- `shared.dfy`: `Option`, `Result`, the `{code, note}` error pair and the width of `size_t`.
- `decimal.dfy`: the decimal text that `std::to_chars` writes and `std::from_chars` reads.
- `search.dfy`: `string_view::find`.
- `pico.dfy`: the result of the external HTTP tokenizer.
- `buffers.dfy`: `memcpy` into a fixed buffer, and the output pipe.
- `json.dfy`: the parsed JSON document.
- `pointer.dfy`: RFC 6901 reference tokens.
- `http.dfy`: `http_protocol_t`.
- `parse.dfy`: `scratch_space_t`, `find_callback`, `round_up_to` and `strip_http_headers`.

The tokenizer (`phr_parse_request`) is outside the model. Each operation that calls it
takes its outcome as a `PicoResult` parameter:

- `Partial` stands for -2.
- `Malformed` stands for any other negative value.
- `Parsed` carries the method, the path and the headers found.

`finalize_response` writes the body length **left-aligned** into the nine-byte field at
offset 33. The trailing bytes of the field keep their spaces. It does not right-align the
number.

## Model

| member | source | states |
|---|---|---|
| Http.TemplateLayout | src/headers/parse/protocol/http.hpp:15-19 | The preamble is 78 bytes. `Content-Length:` is followed by spaces at offsets 32-41, so the 9-byte length field at offset 33 holds only spaces. Then come CRLF, the JSON content type and the blank line. |
| Http.HeaderError | src/headers/parse/protocol/http.hpp:135-152 | No error exactly when the tokenizer parsed a GET, PUT, POST or DELETE request. Otherwise: -206 for a partial request, -400 for a malformed one, -405 for any other method. |
| Http.LastHeaderWins | src/headers/parse/protocol/http.hpp:154-163 | When a header name repeats, the last occurrence sets the field. |
| Http.AbsentHeaderKeeps | src/headers/parse/protocol/http.hpp:154-163 | A field whose header is absent keeps its previous value. |
| Http.HeaderNamesCaseSensitive | src/headers/parse/protocol/http.hpp:154-163 | Header names are compared exactly. A supported request with no header named exactly `Content-Length` (for example one that sends `content-length`) leaves the content length as it was. |
| Http.BodyFollowsFirstTerminator | src/headers/parse/protocol/http.hpp:165-167 | After a successful parse, the body range starts just after the first `\r\n\r\n` and runs to the end of the input. No earlier terminator exists. |
| Http.ThresholdIndependentOfSplit | src/headers/parse/protocol/http.hpp:92-109 | Any received prefix that already holds the header block yields the same completion threshold as the full request. Bytes arriving later do not change the cached value. |
| Http.ThresholdIsHeaderPlusLength | src/headers/parse/protocol/http.hpp:101-105 | With a header block of h bytes declaring `Content-Length: n`, the input is complete exactly at h + n bytes. |
| Http.BodyLength | src/headers/parse/protocol/http.hpp:73 | The mark subtracted from the output size. This is the exact difference whenever the mark does not exceed the size. |
| Http.PatchTemplate | src/headers/parse/protocol/http.hpp:71-80 | Patching a preamble-led output changes only the length field. The body is untouched. |
| Http.FramedResponse | src/headers/parse/protocol/http.hpp:57-80 | For a body under 10^9 bytes, the framed response is the preamble followed by the unchanged body. The length field holds the body length left-aligned and reads back as that length. Every other preamble byte is unchanged. |
| Http.HttpProtocol.constructor | src/headers/parse/protocol/http.hpp:21-26 | A new adapter starts with no mark, no expected length and an empty parsed request. |
| Http.HttpProtocol.PrepareResponse | src/headers/parse/protocol/http.hpp:57-60 | Appends the preamble and records the output length after it as the mark. Nothing else changes. |
| Http.HttpProtocol.AppendResponse | src/headers/parse/protocol/http.hpp:62-64 | Appends the response exactly when it fits, and reports whether it did. A rejected append leaves the output unchanged. |
| Http.HttpProtocol.AppendError | src/headers/parse/protocol/http.hpp:66-69 | Appends only the error code text. The message is never written. |
| Http.HttpProtocol.FinalizeResponse | src/headers/parse/protocol/http.hpp:71-80 | The mark becomes the body length. Its decimal digits overwrite the output in place from offset 33, and nothing else changes. |
| Http.HttpProtocol.Reset | src/headers/parse/protocol/http.hpp:82 | Clears the expected length and leaves the parsed request and the mark alone. |
| Http.HttpProtocol.ParseHeaders | src/headers/parse/protocol/http.hpp:115-170 | Returns the error given by `HeaderError`. On an unsupported method only the path is updated. On success the kind, the three headers (last one wins) and the body range are set as `ParsedAfter` describes. |
| Http.HttpProtocol.IsInputComplete | src/headers/parse/protocol/http.hpp:92-109 | Headers are parsed only while the expected length is unknown. A failed parse leaves it unknown and reports incomplete. A successful parse caches the leading decimal value of `Content-Length` plus the body offset, modulo 2^64. Once cached, the call only compares the input size. |
| Search.FindFirst | src/headers/parse/protocol/http.hpp:165 | The first position where the pattern occurs, or none when it occurs nowhere. |
| Search.FindFirstExtend | src/headers/parse/protocol/http.hpp:165 | Appending bytes does not move an existing first occurrence. |
| Decimal.Digits | src/headers/parse/protocol/http.hpp:74-75 | `to_chars` of an unsigned value: non-empty digits with no redundant leading zero. |
| Decimal.DigitsRoundTrip | src/headers/parse/protocol/http.hpp:74-75 | Reading back the written digits gives the number. |
| Decimal.CanonicalDigits | src/helpers/parse.hpp:39-46 | Every digit string without a redundant leading zero is the rendering of its value, so the rendering is a bijection onto canonical digit strings. |
| Decimal.DigitsLength | src/headers/parse/protocol/http.hpp:74-79 | A value fits a field of k bytes exactly when it is below 10^k. |
| Decimal.DigitPrefixLength | src/headers/parse/protocol/http.hpp:101-102 | The length of the longest run of leading digits. |
| Decimal.FromChars | src/headers/parse/protocol/http.hpp:95-102 | `from_chars` into a zeroed `size_t` gives a value below 2^64. With no leading digits it gives 0. |
| Decimal.FromCharsDigits | src/headers/parse/protocol/http.hpp:101-102 | Digits followed by a non-digit read back as their value. |
| Decimal.IntText | src/helpers/parse.hpp:95 | `to_chars` of a signed id: a minus sign exactly for negative values, followed by digits. |
| Decimal.IntTextRoundTrip | src/helpers/parse.hpp:93-99 | The printed integer id reads back as the id. |
| JsonTree.Field | src/helpers/parse.hpp:72-86 | A member lookup succeeds exactly when the document is an object with a member of that name. It then returns the value of the first such member. |
| JsonPointer.TwoTokens | src/helpers/parse.hpp:29-46 | `/a/b` splits into the reference tokens `a` and `b` when neither contains a slash. |
| JsonRpc.NamedPointerAsWrittenMisses | src/helpers/parse.hpp:29-37 | As written, a bare name `x` yields `/paramsx`, which is a single token. `/x` yields `/params//x`, which has an extra empty token. Neither addresses member `x` of `params`. |
| JsonRpc.NamedPointerAddressesParam | src/helpers/parse.hpp:29-37 | The corrected pointer splits into `params` and the name without its leading slash. |
| JsonRpc.PositionalPointerAddressesParam | src/helpers/parse.hpp:39-46 | `/params/<position>` splits into `params` and a canonical decimal index that denotes `position`. |
| JsonRpc.RoundUpTo | src/helpers/parse.hpp:57-59 | Unless `n + step - 1` overflows, the result is a multiple of `step` in `[n, n + step)`. |
| JsonRpc.RoundUpToIsLeast | src/helpers/parse.hpp:57-59 | No multiple of `step` that is at least `n` lies below the result. |
| JsonRpc.RoundUpToIdempotent | src/helpers/parse.hpp:57-59 | Rounding an already rounded value changes nothing. |
| JsonRpc.RoundUpToWraps | src/helpers/parse.hpp:57-59 | Near `SIZE_MAX` the sum wraps: rounding 2^64 - 1 up to 8 gives 0. |
| JsonRpc.EnvelopeError | src/helpers/parse.hpp:67-89 | No error exactly when the document is a valid request object. Otherwise the error is -32600 and is one of the five validation messages. The message names the first check that fails, in source order: it implies that check failed and every earlier one passed. |
| JsonRpc.CanonicalId | src/helpers/parse.hpp:91-101 | A string id is kept verbatim. An integer id becomes its decimal text, which reads back as the id, and fails exactly when that text exceeds the buffer. Any other id becomes empty. |
| JsonRpc.Int64IdFits | src/helpers/parse.hpp:17 | Every int64 prints in at most 20 bytes. |
| JsonRpc.FindByName | src/helpers/parse.hpp:104-108 | The first callback whose name equals the method, or none when no name matches. |
| JsonRpc.ScratchSpace.constructor | src/helpers/parse.hpp:15-27 | Fresh, distinct pointer and id buffers of the given capacities, with the flags clear. |
| JsonRpc.ScratchSpace.ComposePointer | src/helpers/parse.hpp:31-36 | Writes the head and then the name at the start of the pointer buffer when they fit. Bytes past them keep their values. When they do not fit, it fails and leaves the buffer untouched. |
| JsonRpc.ScratchSpace.PointToNamedParam | src/helpers/parse.hpp:29-37 | The name overload as written: the pointer is the first `8 - needs_slash` bytes of `/params/` followed by the name, with the capacity check on that length. |
| JsonRpc.ScratchSpace.PointToNamedParamCorrected | src/helpers/parse.hpp:29-37 | The name overload with the slash rule the right way round. It writes the pointer that `NamedPointerAddressesParam` proves correct. |
| JsonRpc.ScratchSpace.PointToPositionalParam | src/helpers/parse.hpp:39-46 | Always writes `/params/`. Appends the index digits when they fit the rest of the buffer, and fails otherwise. |
| JsonRpc.ScratchSpace.PrintIntId | src/helpers/parse.hpp:94-98 | Succeeds exactly when the id's decimal text fits the buffer, which then starts with that text. |
| JsonRpc.FindCallback | src/helpers/parse.hpp:64-113 | Succeeds exactly for a valid request whose id fits and whose method names a callback. The result is then the handle of the first such callback. Otherwise it fails with one of the seven listed errors: the envelope error when there is one, the id error when the printed id does not fit, and "Method not found" exactly for a valid request whose id fits but whose method names no callback. A fitting id becomes the dynamic id. The id buffer changes only for an integer id of a valid request. |
| JsonRpc.StripHttpHeaders | src/helpers/parse.hpp:127-174 | -2 exactly for a partial request. A POST keeps the input from the first terminator on, terminator included, and is invalid JSON when there is no terminator. Anything else keeps the whole input. |

## Left out

- The HTTP tokenizer `phr_parse_request` is external code. Its outcome is a parameter. The model does not enforce its 32-entry header limit; a request with more headers is simply one the tokenizer rejects.
- The JSON parser (simdjson) is external code. The document is given as a `Json` value. `at_pointer` resolution is not modelled: the pointer methods return the pointer text they would resolve, and `pointer.dfy` proves which tokens that text names. `~0`/`~1` escaping is not decoded.
- Non-integral numbers carry no value (`JDouble`), because only their kind matters to validation.
- JsonRpc.FindCallback: requires that the id is not an integer representable only as uint64. The source reads such an id through `get_int64`, whose result is then unspecified.
- JsonRpc.FindCallback: a boolean id passes validation and gives an empty dynamic id, as in the source, although JSON-RPC 2.0 does not allow boolean ids.
- Http.HttpProtocol.FinalizeResponse: requires that the body length prints in at most 9 digits and that the output holds the length field. The source ignores the `to_chars` error; the model does not cover what it writes then.
- Http.HttpProtocol.IsInputComplete: requires that a successful tokenizer result comes with a `\r\n\r\n` terminator. The tokenizer also accepts bare line feeds; the source then measures against a stale body view, and that case is not modelled.
- Http.HttpProtocol.PrepareResponse: requires room for the preamble. The reservation policy of `exchange_pipes_t` (containers.hpp) is not part of this model, and `OutputPipe` stands in for it with a fixed capacity.
- Http.HttpProtocol.GetContent returns the body range of the last parse and needs no contract of its own. `Http.BodyFollowsFirstTerminator` states what that range is.
- String views are modelled as the text they show, plus an offset for the body. Their lifetime and aliasing of the input buffer are not modelled.
- `get_request_type`, both `get_param` overloads, `parse_content` and `populate_response` are stubs that return empty values, and they are not modelled.
- JsonRpc.StripHttpHeaders: keeps only the method and the body. Its header scan walks all 32 header slots, including ones the tokenizer did not fill, and that scan is not modelled.
- JsonRpc.ScratchSpace.PointToPositionalParam: on failure, the bytes after `/params/` are unspecified, just as `to_chars` leaves them.
- JsonRpc.ScratchSpace.PrintIntId: on failure, the buffer contents are unspecified.
- JsonRpc.RoundUpTo: the multiple-of-step bound is stated only when `n + step - 1` does not wrap. `RoundUpToWraps` shows what happens when it does.
- JsonRpc.RoundUpToIdempotent: stated for `n + 2 * step <= 2^64`, where neither rounding wraps.

## Findings

| source | as written | input that shows it | evidently intended | confidence | as-written member | corrected member |
|---|---|---|---|---|---|---|
| src/helpers/parse.hpp:29-37 | `needs_slash` is subtracted from the 8-byte `/params/` prefix, so a bare name loses the slash and a slashed name keeps it | name `x` gives `/paramsx`; name `/x` gives `/params//x` | the slash is dropped only when the name already starts with one, giving `/params/x` in both cases | high; not executed | JsonRpc.ScratchSpace.PointToNamedParam, JsonRpc.NamedPointerAsWrittenMisses | JsonRpc.ScratchSpace.PointToNamedParamCorrected, JsonRpc.NamedPointerAddressesParam |
