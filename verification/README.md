# Tour list query builder

This project models the query construction of the natours tour API: the
`aliasTopTours` middleware and the part of the `getAllTours` handler that
turns the HTTP query map into a query for the document store. The model is a
pure function `TourController.Build(q, totalCount)`. It takes the parsed
query map and the number of tours in the collection. It returns either an
error or a `QuerySpec`, which holds:

- the filter: the query map with `page`, `sort`, `limit` and `fields` removed,
  and with `$` put in front of every whole-word `gte`, `gt`, `lte` or `lt`;
- the sort string: commas turned into spaces, default `-createdAt`;
- the projection string: commas turned into spaces, default `-__v`;
- the skip and limit: `page` defaults to 1 and `limit` to 100, and
  `skip = (page - 1) * limit`.

When `page` is supplied and `skip` reaches the tour count, the build fails
with `PageNotFound` ("This page does not exist").

Modules:

- `Results`: the `Option` and `Result` wrappers.
- `QueryValues`: query values as strings, lists or nested objects. It also
  holds the JavaScript coercions the handler relies on: truthiness,
  `String(v)` and `v * 1` restricted to integers.
- `CommaList`: `split(',')` and `join(' ')`.
- `OperatorRewrite`: the regular expression `/\b(gte|gt|lte|lt)\b/g` applied
  to one string. It is given in two forms that are proved equal. One is the
  left-to-right scan. The other is declarative: one `$` before every position
  where a whole-word operator starts. There is also an inverse, `Restore`.
- `Pagination`: page, limit and skip arithmetic.
- `TourController`: the builder and the alias.
- `TourQueryProperties`: properties of the whole builder, and worked examples.

The operator rewrite runs over the JSON text of the filter. Every key and
every string value of that text is wrapped in quote characters, which are not
word characters. So the rewrite is the same as rewriting every key and every
string value on its own, treating the start and the end of each as a word
boundary. `TourController.RewriteValue` does exactly that, at every depth.

Inside a key or string value, `JSON.stringify` writes a control character
(below U+0020) as an escape such as `\n` or `\u001f`. Such an escape starts with
a backslash, which is not a word character, and ends in a letter or digit,
which is. So for word boundaries a control character counts as a non-word
character on its left side and as a word character on its right side. An
operator right after a control character therefore does not start a whole word: in
`a\ngte` the text holds `a\\ngte` and `gte` follows the letter `n`.
`OperatorRewrite.EndsInWordChar` states this, and the scan uses it for the
character it has just passed. The other escapes, `\"` and `\\`, end in
characters that are not word characters, just like the characters they stand
for.

The page check counts every tour, not the tours matching the filter:
`countDocuments()` is called with no filter at
`controllers/tourController.js:71`. So `totalCount` is the size of the whole
collection, whatever the filter.

## Model

| member | source | states |
|---|---|---|
| TourController.StripReserved | controllers/tourController.js:19-21 | The copy keeps exactly the keys other than `page`, `sort`, `limit` and `fields`, each with its original value. |
| TourController.RewriteValue | controllers/tourController.js:28-29 | The rewrite keeps the shape of every value: a string stays a string, a list stays a list of the same length, and an object stays an object. |
| TourController.RewriteObject | controllers/tourController.js:28-29 | In a rewritten object, each entry sits under its rewritten key with its rewritten value, and every key comes from some original key. |
| TourController.NoReservedKeyAfterRewrite | controllers/tourController.js:20-29 | Rewriting the stripped query cannot bring back a control parameter, because the rewrite yields a name without `$` only from that same name. |
| TourController.BuildFilter | controllers/tourController.js:19-36 | The filter has no control parameter. Every other key of the query appears rewritten, with its rewritten value. Every filter key comes from such a key. |
| TourController.ListParam | controllers/tourController.js:39-57 | A missing or empty parameter gives the default. A string parameter gives that string with each comma replaced by a space. A list or object parameter fails, because it has no `split`. |
| TourController.Build | controllers/tourController.js:19-73 | A built query has no control parameter in its filter. Its limit is non-zero and divides the skip. Without `page` the skip is 0. With `page` the skip is below the tour count. `PageNotFound` happens only with `page` supplied and the skip at or beyond the count. |
| TourController.AliasTopTours | controllers/tourController.js:6-11 | The alias sets `limit` to `5`, `sort` to `-ratingsAverage,price` and `fields` to `name,price,ratingsAverage,summary,difficulty`, adds no other key, and leaves every other key unchanged. |
| OperatorRewrite.MatchLenIsWholeWord | controllers/tourController.js:29 | The ordered alternation followed by `\b` matches exactly when the whole word at the position is one of the four operators. |
| OperatorRewrite.Rewrite | controllers/tourController.js:29 | Restoring the rewritten string gives back the original, so the rewrite loses nothing. |
| OperatorRewrite.RewriteFromIsMarked | controllers/tourController.js:29 | The left-to-right scan agrees with the declarative form from any position on. |
| OperatorRewrite.RewriteMarksMatches | controllers/tourController.js:29 | The rewrite puts one `$` before every position where a whole-word operator starts, and changes nothing else. |
| OperatorRewrite.RewriteLength | controllers/tourController.js:29 | The output is longer than the input by exactly the number of matches. |
| OperatorRewrite.RewriteWithoutMatch | controllers/tourController.js:29 | A string with no whole-word operator is returned unchanged. |
| OperatorRewrite.RestoreRewriteFrom | controllers/tourController.js:29 | Dropping the `$` before each whole-word operator undoes the scan from any starting state. |
| OperatorRewrite.NoBareOperator | controllers/tourController.js:29 | After a boundary, the output never starts with an operator that lacks its `$`. |
| OperatorRewrite.RewriteInjective | controllers/tourController.js:29 | Distinct strings rewrite to distinct strings. |
| OperatorRewrite.RewriteHitsDollarFreeOnlyFromItself | controllers/tourController.js:29 | A rewrite result without `$` comes only from that same string. |
| OperatorRewrite.PlainWordUnchanged | controllers/tourController.js:29 | A single word that is not an operator is left alone, even if it contains one, as in `gtex`. |
| OperatorRewrite.OperatorGainsDollar | controllers/tourController.js:29 | An operator on its own gains exactly one `$`. |
| OperatorRewrite.OperatorAfterControlCharUntouched | controllers/tourController.js:28-29 | `a\ngte` (with a newline) is left alone, because in the JSON text `gte` follows the escape letter `n`. |
| OperatorRewrite.MarkedLength | controllers/tourController.js:29 | The declarative form adds one character per match position. |
| CommaList.SpaceSeparated | controllers/tourController.js:40 | `split(',').join(' ')` replaces each comma by a space and keeps every other character. |
| CommaList.SplitJoin | controllers/tourController.js:40 | Splitting on one character and joining with another replaces the first character by the second. |
| CommaList.SplitRoundTrip | controllers/tourController.js:40 | Joining the pieces back with the separator gives the original string. |
| CommaList.SplitPieces | controllers/tourController.js:40 | No piece contains the separator, and there is one more piece than there are separators. |
| QueryValues.NumberOr | controllers/tourController.js:62-63 | `n \|\| d` gives the number when it is a non-zero number, and the default when it is NaN or 0. |
| QueryValues.ToNumberOfListsAndObjects | controllers/tourController.js:62-63 | `v * 1` reads an empty list as 0, a one-element list as its element, and an object as NaN. |
| QueryValues.ParseIntText | controllers/tourController.js:62-63 | The numeric conversion reads back the decimal text of any integer. |
| QueryValues.DigitsOfNatText | controllers/tourController.js:62-63 | Reading back the decimal digits written for a natural number gives that number. |
| Pagination.PageOf | controllers/tourController.js:62 | The page is never 0. It is 1 when `page` is missing, non-numeric or 0, and otherwise it is the number given. |
| Pagination.LimitOf | controllers/tourController.js:63 | The limit is never 0. It is 100 when `limit` is missing, non-numeric or 0, and otherwise it is the number given. |
| Pagination.Skip | controllers/tourController.js:64 | Page 1 skips nothing. The skip is a multiple of the limit, and dividing it by the limit gives back `page - 1`. For a positive page and limit it is not negative. |
| Pagination.SkipSign | controllers/tourController.js:62-64 | The skip is negative for a page below 1 with a positive size and for a page above 1 with a negative size, and positive for a page below 1 with a negative size. |
| Pagination.PagesAreAdjacent | controllers/tourController.js:64-66 | Page `p` ends where page `p + 1` starts. |
| TourQueryProperties.RewriteValueOperatorFree | controllers/tourController.js:28-36 | A value with no operator word in any key or string is left exactly as it was. |
| TourQueryProperties.RewriteValueInjective | controllers/tourController.js:28-36 | Distinct values rewrite to distinct values, at every depth. |
| TourQueryProperties.EqualityQueryFilter | controllers/tourController.js:19-36 | A query with no whole-word operator in any non-control key or in any string value under one gives a filter equal to the query without its control parameters. |
| TourQueryProperties.ControlOnlyQueryHasEmptyFilter | controllers/tourController.js:19-36 | A query made only of control parameters filters on nothing. |
| TourQueryProperties.FilterKeepsOtherKeys | controllers/tourController.js:19-36 | Every non-control key with no whole-word operator in it keeps its name in the filter, holding its rewritten value. |
| TourQueryProperties.RewriteSingleEntry | controllers/tourController.js:28-29 | A one-entry object rewrites to the one rewritten entry. |
| TourQueryProperties.DurationAtLeastExample | controllers/tourController.js:28-36 | `?duration[gte]=5&page=2` filters on `{duration: {$gte: '5'}}`. |
| TourQueryProperties.OperatorKeyIsRewritten | controllers/tourController.js:19-36 | A query of one key that is an operator word on its own filters on that word with a `$` in front, holding the rewritten value, whatever the value. |
| TourQueryProperties.OperatorNamedFieldIsRewritten | controllers/tourController.js:29 | `?gte=lt` filters on `{$gte: '$lt'}`: the field name and the value are both rewritten. |
| TourQueryProperties.EmbeddedGteUntouched | controllers/tourController.js:29 | `gtex` is left alone. |
| TourQueryProperties.EmbeddedLtUntouched | controllers/tourController.js:29 | `length` and `lt5` are left alone. |
| TourQueryProperties.BuildStages | controllers/tourController.js:36-67 | A built query holds the rewritten filter, the sort and projection strings, the limit, and `(page - 1) * limit` as skip. |
| TourQueryProperties.SortAndSelectHaveNoComma | controllers/tourController.js:39-57 | The sort and projection strings hold no comma, and a supplied parameter keeps its length. |
| TourQueryProperties.BuildErrorOrder | controllers/tourController.js:39-57 | A list-valued `sort` is reported before anything else. A list-valued `fields` is reported next. |
| TourQueryProperties.PageCheckedAgainstCount | controllers/tourController.js:70-72 | With well-formed `sort` and `fields` and with `page` supplied, the build fails exactly when the skip is at or beyond the tour count, and succeeds exactly when it is below. |
| TourQueryProperties.NoPageNoCheck | controllers/tourController.js:70-72 | Without `page`, the build never reports a missing page and does not depend on the count. |
| TourQueryProperties.MoreToursStillAccepted | controllers/tourController.js:70-72 | A query accepted for some number of tours is accepted, unchanged, for any larger number. |
| TourQueryProperties.EmptyCollectionHasNoPages | controllers/tourController.js:70-72 | With well-formed `sort` and `fields`, `page` supplied, and a positive page and limit, an empty collection reports the page missing. |
| TourQueryProperties.SecondPageExample | controllers/tourController.js:59-67 | `?page=2&limit=10` over 25 tours skips 10 and takes 10. |
| TourQueryProperties.PageBeyondCollectionExample | controllers/tourController.js:70-72 | `?page=100&limit=10` over 25 tours is reported missing. |
| TourQueryProperties.ZeroPageIsFirstPage | controllers/tourController.js:62-72 | With well-formed `sort` and `fields`, `?page=0` reads as page 1 but still triggers the check, so it is accepted exactly when there is at least one tour, and then skips nothing. |
| TourQueryProperties.AliasKeepsFilter | controllers/tourController.js:6-11 | The alias does not change the filter the query builds. |
| TourQueryProperties.TopToursSelectText | controllers/tourController.js:9 | The alias projection becomes `name price ratingsAverage summary difficulty`. |
| TourQueryProperties.TopToursQuery | controllers/tourController.js:6-11 | Without `page`, the alias yields limit 5 from the first tour on, sorted by `-ratingsAverage price`, with the five summary fields, and the original filter. |

## Left out

- The CRUD handlers `getTour`, `createTour`, `updateTour` and `deleteTour`. Each is one document-store call plus a response, with no logic of its own.
- Running the built query, and what `find`, `sort`, `select`, `skip` and `limit` mean in the document store. The model stops at the query specification.
- `Tour.countDocuments()`. It is a database call, so the tour count is a parameter of `Build`.
- The 404 response, its body, and how the raw error object is serialised. The model returns the error value instead.
- `console.log` output.
- The JSON text itself. Keys and strings are rewritten as the characters they hold, with each control character standing for its escape as described above, and the stringify/parse round trip is taken to be the identity on them. Characters that `JSON.stringify` leaves unescaped, including non-ASCII ones, are never word characters for `\b` unless they are ASCII letters, digits or `_`, which the model follows.
- QueryValues.ParseNumber: covers only an optional sign followed by decimal digits, and the empty string. It does not cover surrounding white space, fractions, exponents, hexadecimal, `Infinity`, or arrays whose text is numeric in some other way. Such inputs read as NaN here. Fractional pages and limits are out of scope.
- Pagination.Skip: uses unbounded integers, not 64-bit floating point. The two differ only beyond 2^53, where the source loses precision.
- Negative `page` and `limit` values are kept as the source keeps them, and are not rejected. A negative page with a positive limit, or a page above 1 with a negative limit, gives a negative skip. A negative page with a negative limit gives a positive skip. What the document store does with a negative skip or limit is not part of this model.
- The route wiring in `app.js`, and the start-up code in `server.js` (environment loading, database connection, `listen`). These are not part of this model.
