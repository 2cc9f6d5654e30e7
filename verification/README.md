# Crew lookup by role and movie — a Dafny model

This project models the HTTP handler `handler` of
`lambdas/getCrewbyRoleAndMovieId.ts`, which returns the crew members of a
movie who hold a given role. The handler

1. rejects the request with 400 "Missing role or movieId in path parameters"
   unless the `role` and `movieId` path parameters are both truthy (defined
   and not the empty string);
2. parses `movieId` with `parseInt(movieId, 10)` and rejects NaN with
   400 "Invalid movieId";
3. sends one query with the key condition `movieId = :m and crewRole = :r`,
   binding the parsed number and the role text unchanged;
4. answers 404 "No crew members found " (trailing space included) when the
   query's `Items` is undefined or empty, otherwise 200 with
   `crew = Items.map(item => item.name)`;
5. answers 500 "Internal server error" when the query throws.

The model has three modules:

- `Wrappers` — `Option`, standing in for JavaScript's `undefined`.
- `IntParsing` — ECMAScript's `parseInt` at radix 10 (section 19.2.5 of
  ECMA-262, "parseInt ( string, radix )"): skip StrWhiteSpaceChar code units,
  take one optional `+` or `-`, read the longest run of decimal digits, and
  return NaN (`None`) when that run is empty. `ParseInt` is the functional
  definition; `ParseIntScan` is the standard's left-to-right scan, proved to
  agree with it. The accepted shape is also stated as a grammar (`Lexes`:
  white space, optional sign, a non-empty digit run, a rest that does not
  start with a digit), and `ParseInt` is proved to accept exactly that
  grammar. `DecimalString` renders an integer and is proved to parse back.
- `CrewLookup` — the request, store outcome and response datatypes and the
  pure function `Handle(params, outcome)`. The store's reply is the input
  `outcome` (`Failure`, or `Success(items)` with `items` possibly
  undefined), and `Handle` returns an `Invocation`: the query it issued, if
  any, together with the response. "No query was sent" is therefore
  `query == None`.

## Model

| member | source | states |
|---|---|---|
| `CrewLookup.Handle` | lambdas/getCrewbyRoleAndMovieId.ts:8-62 | A query is issued exactly when the status is not 400. Every response is one of the handler's shapes: 400 with the missing or invalid message, 404 with "No crew members found ", 500 with "Internal server error", or 200 with a non-empty crew list. In particular the status is always 200, 400, 404 or 500. |
| `CrewLookup.Validate` | lambdas/getCrewbyRoleAndMovieId.ts:13-29 | Validation either rejects with a well-formed 400 response or yields a key whose role is the `role` parameter unchanged. A query needs both parameters present, and "Invalid movieId" is only given when both are present: the presence check comes first. |
| `CrewLookup.Respond` | lambdas/getCrewbyRoleAndMovieId.ts:42-61 | The response to a query is well-formed and never 400. It is 500 exactly when the query failed, and 200 exactly when `Items` holds at least one item, in which case the crew has one entry per item. |
| `CrewLookup.MissingParametersResponse` | lambdas/getCrewbyRoleAndMovieId.ts:13-18 | The response is 400 "Missing role or movieId in path parameters" if and only if the parameters are absent or `role` or `movieId` is undefined or empty. In that case no query is issued. |
| `CrewLookup.EmptyMovieIdIsMissing` | lambdas/getCrewbyRoleAndMovieId.ts:13-29 | The presence check runs before parsing. An empty `movieId`, which `parseInt` would also reject, gets the "Missing…" message and never "Invalid movieId". |
| `CrewLookup.InvalidMovieIdResponse` | lambdas/getCrewbyRoleAndMovieId.ts:23-29 | The response is 400 "Invalid movieId" if and only if both parameters are present and no prefix of `movieId` has the shape white space, optional sign, digits. In that case no query is issued. |
| `CrewLookup.QueryKeyOfRequest` | lambdas/getCrewbyRoleAndMovieId.ts:20-40 | A query is issued if and only if both parameters are present and `movieId` parses. Its key is the parsed number together with `role`, unchanged. |
| `CrewLookup.LenientMovieIdQuery` | lambdas/getCrewbyRoleAndMovieId.ts:23-38 | Take any non-empty role and a `movieId` made of an integer's decimal text followed by any text that does not start with a digit (e.g. "42abc"). The handler then queries exactly that integer and that role. |
| `CrewLookup.NotFoundResponse` | lambdas/getCrewbyRoleAndMovieId.ts:42-47 | Once a query is issued, the response is 404 "No crew members found " if and only if `Items` is undefined or empty. |
| `CrewLookup.CrewResponse` | lambdas/getCrewbyRoleAndMovieId.ts:49-54 | Once a query is issued, n ≥ 1 items give status 200 and a crew list of length n. Element i is the `name` of item i. |
| `CrewLookup.CrewNames` | lambdas/getCrewbyRoleAndMovieId.ts:49 | The projection has one entry per item, and entry i is item i's `name`, which may be undefined. |
| `CrewLookup.CrewNamesAppend` | lambdas/getCrewbyRoleAndMovieId.ts:49 | The projection keeps store order: projecting a concatenation gives the concatenation of the projections. |
| `CrewLookup.ServerErrorResponse` | lambdas/getCrewbyRoleAndMovieId.ts:55-61 | Once a query is issued, the status is 500 if and only if the query failed. The body is then "Internal server error". |
| `CrewLookup.OutcomeUnusedWithoutQuery` | lambdas/getCrewbyRoleAndMovieId.ts:13-40 | When validation rejects the request, the store's outcome cannot change the invocation. |
| `CrewLookup.SameQuerySameResponse` | lambdas/getCrewbyRoleAndMovieId.ts:31-54 | Two requests that issue the same query get the same response from the same store outcome. Identical inputs therefore give identical responses. |
| `IntParsing.ParseInt` | lambdas/getCrewbyRoleAndMovieId.ts:23 | `parseInt(s, 10)`: "" is NaN, a text starting with a digit is a non-negative number, and a text starting with anything other than white space, a sign or a digit is NaN. Its full meaning is `ParseIntCharacterisation`. |
| `IntParsing.IsWhitespace` | lambdas/getCrewbyRoleAndMovieId.ts:23 | The StrWhiteSpaceChar set that parseInt skips. No white space code unit is a digit or a sign, so skipping it never swallows part of a number. |
| `IntParsing.ParseIntCharacterisation` | lambdas/getCrewbyRoleAndMovieId.ts:23 | `parseInt(s, 10)` is v if and only if s splits as white space, an optional sign, a non-empty digit run and a rest that does not start with a digit, and v is the signed value of that digit run. |
| `IntParsing.ParseIntNaN` | lambdas/getCrewbyRoleAndMovieId.ts:23-24 | `parseInt(s, 10)` is NaN if and only if s has no such split. |
| `IntParsing.ParseIntOfLexes` | lambdas/getCrewbyRoleAndMovieId.ts:23 | Every text of the accepted shape parses to the signed value of its digit run. Text after the run is ignored. |
| `IntParsing.ParseIntHasLexes` | lambdas/getCrewbyRoleAndMovieId.ts:23 | Every successful parse comes from a split of the accepted shape, and the parse has that split's value. |
| `IntParsing.ParseIntRoundTrip` | lambdas/getCrewbyRoleAndMovieId.ts:23 | Parsing an integer's decimal text gives the integer back, even with non-digit text appended. |
| `IntParsing.ParseIntScan` | lambdas/getCrewbyRoleAndMovieId.ts:23 | The standard's scan gives the same result as the functional definition on every input: skip white space, take a sign, accumulate digits. |
| `IntParsing.SkipWhitespace` | lambdas/getCrewbyRoleAndMovieId.ts:23 | The scan's first loop stops at the end of the leading white space. |
| `IntParsing.ScanDigits` | lambdas/getCrewbyRoleAndMovieId.ts:23 | The scan's digit loop stops at the end of the longest digit run. It accumulates the decimal value of that run. |
| `IntParsing.LeadingWhitespace` | lambdas/getCrewbyRoleAndMovieId.ts:23 | The leading white space is maximal: every code unit before the cut is white space, and the one at the cut (if any) is not. |
| `IntParsing.DigitRun` | lambdas/getCrewbyRoleAndMovieId.ts:23 | The digit run is maximal: every code unit in it is a decimal digit, and the one after it (if any) is not. |
| `IntParsing.ParseIntIgnoresTrailingText` | lambdas/getCrewbyRoleAndMovieId.ts:23 | "42abc" parses to 42. |
| `IntParsing.ParseIntNoHexPrefix` | lambdas/getCrewbyRoleAndMovieId.ts:23 | At radix 10 there is no "0x" prefix, so "0x10" parses to 0. |
| `IntParsing.ParseIntSkipsWhitespaceAndSign` | lambdas/getCrewbyRoleAndMovieId.ts:23 | " \t-17" parses to -17. |
| `IntParsing.ParseIntNaNExamples` | lambdas/getCrewbyRoleAndMovieId.ts:23-24 | "abc", "-", "x42" and "" all parse to NaN. |

## Left out

- The store client: the construction of the DynamoDB client, `QueryCommand`, `send`, and the `REGION` and `TABLE_NAME` environment variables. These are I/O and SDK calls. The reply becomes the `outcome` input, and the query becomes the `query` field of the result.
- `console.error` and the raw `error` object that is serialised into the 500 body. The model's 500 body carries only the message.
- JSON encoding of bodies, including an undefined `name` becoming `null`. Bodies stay datatype values. A `name` is modelled as an optional string, so names of other types are not modelled.
- Exceptions thrown outside the query, such as an `Items` element that is `null`. The model's items are always records, so only the query itself can fail.
- Pagination: the handler reads only the `Items` of the single reply, and so does the model.
- The floating-point side of `parseInt`: `-0`, precision loss above 2^53, and overflow to `Infinity`. The parsed value is an unbounded integer, and "-0" parses to 0.
- JavaScript strings are UTF-16 code units, while Dafny characters are Unicode scalar values, so lone surrogates are not modelled. They are neither white space nor digits, so they do not change any parse.
- The white space set is the ECMAScript StrWhiteSpaceChar set, with the Zs space separators written out as of current Unicode.
- Reuse of the module-level client across concurrent invocations. Each invocation is modelled on its own.
- Records with a comma-separated `names` attribute and a `name` query-string filter are not modelled. This handler never reads `queryStringParameters` and projects only `item.name` (lambdas/getCrewbyRoleAndMovieId.ts:49).
