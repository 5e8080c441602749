# Video search filter

This project is a Dafny model of the search service of a video player's UI (`src/utils/searchInfo.js`).
The service keeps one shared record of search criteria, and the search form writes into that record.
It offers three operations over the catalogue of videos:

- `search` keeps the videos whose name contains the name criterion and whose type equals the type criterion.
- `searchType` keeps the videos whose type equals a type passed as an argument.
- `reset` clears every criterion back to the empty string.

Each criterion is trimmed before use. A criterion that trims to the empty string matches every video: this is the match-all-if-blank rule of `trimSpaceFilter`. In JavaScript the empty string is the only falsy string, so the `!!trimmed` test in `trimSpaceFilter` becomes a test for non-emptiness.

The model has three modules:

- `JsString` (`js_string.dfy`) models the two string builtins the filter uses. `Trim` is `String.prototype.trim`. It skips white space forwards from the start with `SkipSpace`, then backwards from the end with `SkipSpaceBack`, and returns the slice between. `Contains` is `String.prototype.includes`. Matching is case-sensitive, as in the source.
- `JsArray` (`js_array.dfy`) models `Array.prototype.filter` as `Filter` over a sequence, with lemmas on its exact behaviour:
  - it distributes over concatenation;
  - it returns a subsequence of its input;
  - it keeps the count of every value that passes and drops every value that fails;
  - chaining two filters is the same as one filter on the conjunction.
- `SearchInfo` (`search_info.dfy`) models the service itself:
  - the `Video` record;
  - `TrimSpaceFilter`, with the match handler passed as a function value;
  - `SearchType`, a pure function of the list and its argument;
  - the criteria record as the class `SearchData`, with its six string fields.

  `SearchData.Search` is a function that reads the record, so it cannot change the record or the list. `SearchData.Reset` is a method that visits the six fields in declaration order and sets each one to `""`, as `Object.keys(...).forEach` does.

The selection rule is also stated on its own, separately from the filter code:
- `MatchesType` is the type rule.
- `MatchesCriteria` is the full rule.

The lemmas `SearchSelects` and `SearchTypeSelects` prove that the chained filters keep exactly the videos that satisfy these rules, in catalogue order.

## Model

| member | source | states |
|---|---|---|
| `JsString.SkipSpace` | src/utils/searchInfo.js:28 | Skipping forwards passes over white space only. It stops at the first character that is not white space, or at the end of the string. |
| `JsString.SkipSpaceBack` | src/utils/searchInfo.js:28 | Skipping backwards passes over white space only. It stops just after the last character that is not white space, or at the lower bound. |
| `JsString.Trim` | src/utils/searchInfo.js:28 | The trimmed criterion is a contiguous slice of the input with only white space on either side. The slice is empty or begins and ends with non-white-space. |
| `JsString.TrimEmptyIffBlank` | src/utils/searchInfo.js:28-29 | A criterion trims to `""`, which is falsy, exactly when it is empty or all white space. |
| `JsString.TrimIsTheSolidCore` | src/utils/searchInfo.js:28 | The result of trim does not depend on how it is computed. Split a string into white space, then a part with non-white-space ends, then white space: trim returns that middle part. |
| `JsString.TrimIdempotent` | src/utils/searchInfo.js:28 | Trimming an already trimmed criterion changes nothing. |
| `JsString.TrimKeepsSolidString` | src/utils/searchInfo.js:28 | A string with no white space at either end is returned unchanged by trim. |
| `JsString.Contains` | src/utils/searchInfo.js:19 | `includes` holds exactly when the needle occurs at some offset of the name, compared character by character and case-sensitively. The empty needle occurs everywhere. |
| `JsArray.Filter` | src/utils/searchInfo.js:19-20 | The result is no longer than the input. Every element of the result is in the input and passes the callback. Every element of the input that passes is in the result. |
| `JsArray.FilterConcat` | src/utils/searchInfo.js:19-20 | Filtering a concatenation gives the concatenation of the two filtered parts, which makes the filter order-preserving. |
| `JsArray.FilterSingleton` | src/utils/searchInfo.js:19-20 | A one-element list is either kept whole or dropped, depending on the callback. |
| `JsArray.FilterIsSubsequence` | src/utils/searchInfo.js:19-20 | The filter only deletes elements. The rest keep their relative order. |
| `JsArray.FilterCount` | src/utils/searchInfo.js:19-20 | A value that passes occurs in the result as often as in the input. A value that fails does not occur at all. |
| `JsArray.FilterKeepsAll` | src/utils/searchInfo.js:19-20 | The filter returns its input unchanged if and only if every element passes. |
| `JsArray.FilterFilter` | src/utils/searchInfo.js:19-20 | Filtering by name and then by type selects the same list as a single filter on both conditions. |
| `JsArray.FilterExtensional` | src/utils/searchInfo.js:24 | Two callbacks that give the same answers select the same list. |
| `SearchInfo.TrimSpaceFilter` | src/utils/searchInfo.js:27-33 | A blank criterion (empty or whitespace-only) gives true, whatever the handler. Otherwise the result is the handler applied to the untrimmed record value and the trimmed criterion. |
| `SearchInfo.SearchType` | src/utils/searchInfo.js:23-25 | The function reads only its argument and the list. It keeps exactly the videos whose type equals the trimmed argument. A blank argument returns the whole list unchanged. The result is a subsequence of the list. |
| `SearchInfo.SearchTypeSelects` | src/utils/searchInfo.js:23-25 | `searchType` equals a filter of the list by the type rule `MatchesType`, so the kept videos stay in catalogue order. |
| `SearchInfo.SearchTypeTrimsArgument` | src/utils/searchInfo.js:24 | `searchType(" Comedy ")` selects exactly the videos whose type is `"Comedy"`, in order. |
| `SearchInfo.SearchData.constructor` | src/utils/searchInfo.js:7-14 | All six criteria fields start as `""`. |
| `SearchInfo.SearchData.Set` | src/utils/searchInfo.js:41 | `obj[key] = ''` changes the named field and leaves the other five unchanged. |
| `SearchInfo.SearchData.Search` | src/utils/searchInfo.js:16-21 | A video is in the result if and only if it is in the list and satisfies `MatchesCriteria`. To satisfy it, the name criterion must be blank or occur in the video's name after trimming, and the type criterion must be blank or equal the video's type after trimming. With both criteria blank, the whole list comes back unchanged. |
| `SearchInfo.SearchData.Reset` | src/utils/searchInfo.js:35-46 | Afterwards every field is `""` and `search` returns the whole list. The new state does not depend on the old one, so a second reset leaves the same state as one. |
| `SearchInfo.SearchSelects` | src/utils/searchInfo.js:19-20 | The two chained filters of `search` equal one filter of the list by `MatchesCriteria` on the current criteria. |
| `SearchInfo.SearchIsSubsequence` | src/utils/searchInfo.js:19-20 | `search` only deletes videos and keeps catalogue order. |
| `SearchInfo.SearchIgnoresDates` | src/utils/searchInfo.js:16-21 | Two criteria records with the same name and type give the same search result, whatever their date fields hold. |
| `SearchInfo.SearchIsCaseSensitive` | src/utils/searchInfo.js:19 | The name criterion `"cat"` finds neither `"Cat Fun"` nor `"Dog Drama"`, because matching is case-sensitive. |

## Left out

- Vue's `reactive`/`ref` proxying of the criteria record is not modelled. `SearchData` is a plain class, and the form bindings that write into it are outside this model.
- The diagnostic `console.log` in `search` is I/O and is not modelled.
- `src/utils/mockVideoInfo.js` is not part of this model. The catalogue is a `seq<Video>` parameter, and `Video` has only the two fields the search reads.
- `SearchInfo.SearchData.Reset` does not model the recursive branch of `clearValue` for nested objects. The model assumes the form writes only strings into the record, so that branch is never taken. If a field held `null`, whose `typeof` is `'object'`, `clearValue(null)` would throw at `Object.keys(null)`. A field holding a `Date` would be left unchanged. Neither case is modelled.
- `JsString.IsWhiteSpace` lists ECMA-262's WhiteSpace and LineTerminator code points, with the space separators (category Zs) as of Unicode 15. The lemmas of `JsString` hold for any set. The two example lemmas rely only on `' '` being white space and on ASCII letters not being white space.
- `SearchInfo.SearchType`, `SearchInfo.SearchData.Search` and `SearchInfo.TrimSpaceFilter` take strings only, so they do not model the source's `TypeError` paths. Calling `searchType()` with no argument throws at `videoType.trim()`. A video whose `videoName` is not a string throws at `includes` when the name criterion is not blank.
- Dafny characters are Unicode scalar values, while JavaScript strings are UTF-16 code units. Strings with unpaired surrogates are not represented.
- The `data`/`method` export objects at the end of the file only re-export the record and the three operations, and are not modelled.
- Calling `reset()` twice is not written as a separate member. `SearchData.Reset` fixes the whole new state without reference to the old one, and that is the idempotence the source has.
