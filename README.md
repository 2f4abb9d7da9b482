# NextInbox bulk-send data path, in Dafny

This project models the data path of NextInbox's bulk e-mail sender:

- a user uploads a CSV file;
- the placeholders of a template (`{{name}}`) are extracted and mapped automatically to CSV columns;
- a preview substitutes the first row's values into the template;
- a send request is built with one recipient per row.

It also models the small utilities next to that path:

- the filtered and sorted contact and log lists;
- the text of the contacts CSV export;
- the `nib_` API-key format;
- the route guard that redirects signed-out users to the sign-in page.

Each source file becomes one Dafny module. Code that the source writes as expression chains (`match`/`map`/`filter`, a `||` chain) becomes functions and lemmas. Code that fills a dictionary in a loop, reassigns a variable in a `forEach`, or returns early from a `for` becomes a method with a loop. That method is proved against a specification function, and the function's properties are proved as lemmas.

Shared modules:

- `Wrappers` holds `Option` and `Result`.
- `Text` holds the JavaScript string operations the code uses: `trim` with the JavaScript white-space set, ASCII `toLowerCase`/`toUpperCase`, `includes`, `startsWith`, `endsWith`, `split` and `join`.
- `Seqs` holds `indexOf`, `filter`, `find` and the `indexOf`-based de-duplication.
- `Records` models a plain JavaScript object as an ordered list of entries with distinct keys. `m[k] = v` overwrites in place or appends, so `Object.entries` order is kept.
- `Ordering` holds `sort` with a key comparator.
- `Types` holds the template, contact and log records.

Effects are inputs:

- the clock reading (`now`), a selected day's bounds, the random draws of the key generator, the text of the uploaded file and the session flag are parameters;
- `formatDate` and the `localeCompare` order are function parameters.

## Model

| member | source | states |
|---|---|---|
| Template.MatchAt | lib/utils/template.ts:2 | the regular expression `{{([^}]+)}}` tried at an index matches exactly up to the end of the one token starting there, if any |
| Template.Scan | lib/utils/template.ts:2-3 | the global scan yields only whole tokens (`{{`, one or more non-`}`, `}}`) |
| Template.TokenName | lib/utils/template.ts:5 | a token's name after removing all braces and trimming is trimmed and brace-free |
| Template.ExtractPlaceholders | lib/utils/template.ts:1-7 | the result has no duplicates; it is the token names de-duplicated by first occurrence; every name is trimmed and brace-free; there are no more names than matched tokens |
| Template.ScanEmpty | lib/utils/template.ts:2-3 | the scan finds nothing exactly when no token starts at or after the index |
| Template.NoTokenNoPlaceholders | lib/utils/template.ts:2-7 | the result is empty if and only if the content holds no token |
| Template.PlaceholdersComeFromTokens | lib/utils/template.ts:3-6 | every extracted name is the name of a matched token |
| TemplateExamples.NoBraceNoToken | lib/utils/template.ts:2-3 | content without `{` yields no placeholder |
| TemplateExamples.EmptyAndPlainContent | lib/utils/template.ts:2-3 | `""` and `"no placeholders"` yield `[]` |
| TemplateExamples.EmptyBraces | lib/utils/template.ts:2-3 | `"{{}}"` yields `[]`, since the token needs at least one character |
| TemplateExamples.BlankToken | lib/utils/template.ts:2-5 | `"{{  }}"` yields `[""]`: the blank name is kept, not dropped |
| TemplateExamples.BracedName | lib/utils/template.ts:5 | the name inside a one-character token `{{c}}`, for a non-blank `c` other than a brace, is `c` |
| TemplateExamples.RepeatedToken | lib/utils/template.ts:2-6 | `"{{a}}{{b}}{{a}}"` yields `["a","b"]`: left-to-right matching, first occurrence kept |
| Seqs.FirstOccurrences | lib/utils/template.ts:6 | the `indexOf` filter keeps each value once, in order of first occurrence |
| Seqs.FirstOccurrencesSnoc | lib/utils/template.ts:6 | appending a value adds it to the de-duplicated list exactly when it is new |
| TemplateExamples.KeepFirstOfABA | lib/utils/template.ts:6 | the filter turns `[a, b, a]` into `[a, b]` |
| TemplateExamples.ThreeTokensTwoNames | lib/utils/template.ts:3-6 | three tokens, the first and last alike, with different names give the two names in order |
| Normalize.NormalizeString | lib/utils/string.ts:1-6 | the result holds only `a`-`z` and `0`-`9` and is never longer than the input |
| Normalize.NormalizeIsFilter | lib/utils/string.ts:3-4 | the result is the order-preserving subsequence of the lower-cased input that keeps `[a-z0-9]` |
| Normalize.NormalizeIsKept | lib/utils/string.ts:2-5 | normalising equals lower-casing and then filtering |
| Normalize.TrimIsNoOp | lib/utils/string.ts:5 | the final `trim` removes nothing from a string of `[a-z0-9]` characters |
| Normalize.NormalizeIdempotent | lib/utils/string.ts:2-5 | normalising twice is normalising once |
| Text.TrimDropsTrailingSpace | components/automate/csv-uploader.tsx:30 | a white-space character appended to a string is trimmed off again |
| Text.SplitSnoc | components/automate/csv-uploader.tsx:30 | appending a non-separator character extends only the last piece of a split |
| Text.LowerUpper | lib/utils/string.ts:3 | lower-casing after upper-casing is lower-casing |
| Normalize.NormalizeIgnoresCase | lib/utils/string.ts:3 | upper-casing the input first gives the same result |
| NormalizeExamples.EmailAddressSpelling | lib/utils/string.ts:2-5 | `email` and `address` in any case around any separator that is not a lower-case letter or digit (`Email Address`, `email_address`, `EMAIL-ADDRESS`) normalise to `emailaddress` |
| FieldMapping.NormalizeFields | lib/utils/field-mapping.ts:8-11 | one normalised field per column, in column order, holding the original name and its normalised form |
| FieldMapping.MatchColumn | lib/utils/field-mapping.ts:14-35 | a chosen column is always one of the given columns |
| FieldMapping.ExactMatchWins | lib/utils/field-mapping.ts:17-24 | the first column normalising exactly like the placeholder is chosen, even over an earlier containment match |
| FieldMapping.ContainmentFallback | lib/utils/field-mapping.ts:27-35 | with no exact match, the first column whose normalised name contains, or is contained in, the placeholder's is chosen |
| FieldMapping.NoMatchNoEntry | lib/utils/field-mapping.ts:27-35 | no column is chosen if and only if no column overlaps the placeholder by containment |
| FieldMapping.FindMatchingFields | lib/utils/field-mapping.ts:3-39 | keys are distinct; a placeholder has an entry if and only if it is one of the placeholders and some column matches it; each value is the column chosen for its key and is one of the CSV fields; keys keep placeholder order |
| FieldMapping.MappedColumnsAreFields | lib/utils/field-mapping.ts:22-34 | every mapped value is an element of the CSV fields |
| FieldMapping.ChooseColumn | lib/utils/field-mapping.ts:14-35 | the body of the `forEach` picks the exact match if there is one, else the first containment match, as MatchColumn specifies |
| FieldMapping.ChosenIsField | lib/utils/field-mapping.ts:22-34 | a chosen column is one of the CSV's own column names |
| FieldMapping.MappingsStep | lib/utils/field-mapping.ts:14-35 | visiting one more placeholder sets its chosen column, if there is one, and changes nothing otherwise |
| FieldMapping.MappingsLookup | lib/utils/field-mapping.ts:13-36 | after visiting the placeholders, a placeholder's entry is its chosen column if it was visited, and absent otherwise |
| FieldMapping.MappingsDistinct | lib/utils/field-mapping.ts:13-36 | the mapping never holds a placeholder twice |
| FieldMapping.MappingsOrder | lib/utils/field-mapping.ts:13-36 | every key is a visited placeholder, and keys appear in the order their placeholders were first visited |
| FieldMapping.MappingsSpec | lib/utils/field-mapping.ts:7-38 | keys are distinct; a placeholder has an entry if and only if it was visited and a column was chosen for it; each value is that column; keys keep placeholder order |
| FieldMapping.EmptyKeyAlwaysMapped | lib/utils/field-mapping.ts:28-30 | a placeholder that normalises to `""` is mapped whenever there is a column |
| FieldMapping.NoColumnsNoMatch | lib/utils/field-mapping.ts:8-27 | with no columns no placeholder is mapped |
| Email.NatToString | lib/utils/email.ts:47 | a non-negative integer prints as its decimal digits, without a leading zero: what `toString` gives for the safe integers a cell holds |
| Email.NatToStringRoundTrip | lib/utils/email.ts:47 | reading the digits back gives the number |
| Email.IntToString | lib/utils/email.ts:47 | the text is non-empty and starts with `-` exactly for negative numbers |
| Email.TruthyIsNonEmpty | lib/utils/email.ts:63-64 | a truthy cell never stringifies to `""` |
| Seqs.FindIndex | lib/utils/email.ts:62-66 | the index found is the first whose element passes the test; there is none exactly when no element passes |
| Seqs.FindIndexAt | lib/utils/field-mapping.ts:17-19 | an index whose element passes, with none passing before it, is the one found |
| Email.FirstTruthyPriority | lib/utils/email.ts:62-66 | the earliest truthy field wins; falsy and missing fields are skipped |
| Email.FirstTruthyFallback | lib/utils/email.ts:67-77 | with no truthy field, the fallback is returned |
| Email.FirstTruthyNonEmpty | lib/utils/email.ts:72-77 | with a non-empty fallback the result is never empty |
| Email.FirstTruthyField | lib/utils/email.ts:62-67 | the early-return loop returns the first truthy field's value, stringified, or the fallback |
| Email.GetEmailFromRow | lib/utils/email.ts:60-68 | the first truthy of `email`, `email_address`, `Email`, `EMAIL`, else `''` |
| Email.GetNameFromRow | lib/utils/email.ts:70-78 | the first truthy of `name`, `Name`, `NAME`, `full_name`, `recipient_name`, else `'Recipient'`; never empty |
| Email.FalsyCellsFallThrough | lib/utils/email.ts:60-67 | cells holding `""` or `0` count as missing: the address comes from the first column that is truthy |
| Email.MissingNameFallsBack | lib/utils/email.ts:70-77 | a row with none of the name columns gets the name `'Recipient'` |
| Email.Parameters | lib/utils/email.ts:44-49 | the parameter object has at most one entry per mapping entry |
| Email.ParametersKeys | lib/utils/email.ts:45-48 | every parameter key is a mapped placeholder, in mapping order |
| Email.ParametersLookup | lib/utils/email.ts:45-48 | a placeholder's parameter is its mapped column's cell in the row, stringified, exactly when the row defines that column |
| Email.ParametersStep | lib/utils/email.ts:46-48 | one more mapping entry adds its parameter exactly when the row defines its column |
| Email.ParameterNotYetSet | lib/utils/email.ts:45-47 | with distinct placeholders an entry's key is not yet among the parameters |
| Email.BuildParameters | lib/utils/email.ts:44-49 | the parameter loop builds the object Parameters specifies from the first row |
| Email.RequestParameters | lib/utils/email.ts:44-49 | the request's parameters are exactly the mapped placeholders whose column the first row defines, valued with that cell's text, in mapping order |
| Email.RecipientFromRow | lib/utils/email.ts:34-41 | a recipient holds the row's address and name |
| Email.BuildRecipients | lib/utils/email.ts:34-41 | one recipient per row, same length and order |
| Email.CreateEmailRequest | lib/utils/email.ts:21-58 | fails with "Template not found" exactly when the template is missing, and succeeds exactly when it is present; then the ids are copied, there is one recipient per row in order, and the parameters come from the first row only |
| CsvUploader.Cells | components/automate/csv-uploader.tsx:35 | a line gives at least one cell; every cell is trimmed and holds no comma |
| CsvUploader.RecordKeys | components/automate/csv-uploader.tsx:36-39 | a record's keys are the header names, each once, in order of first appearance |
| CsvUploader.RecordDistinctKeys | components/automate/csv-uploader.tsx:36-39 | a record never holds a key twice |
| CsvUploader.RecordLookup | components/automate/csv-uploader.tsx:36-39 | a header's value is the trimmed cell under its last column of that name, or `''` when missing or empty; other keys are absent |
| CsvUploader.BuildRecord | components/automate/csv-uploader.tsx:36-39 | the `reduce` loop builds the record RecordFor specifies |
| CsvUploader.ParseLine | components/automate/csv-uploader.tsx:34-40 | a data line becomes the record of its trimmed cells under the headers |
| CsvUploader.ParseLines | components/automate/csv-uploader.tsx:34-40 | one record per data line, in line order |
| CsvUploader.ParseCsvText | components/automate/csv-uploader.tsx:28-40 | the headers are the first line's trimmed cells; there is one record per non-blank line after the first, in file order |
| CsvUploader.TrailingNewlineAddsNoRecord | components/automate/csv-uploader.tsx:32-33 | a trailing newline adds no record |
| CsvUploader.CarriageReturnTrimmed | components/automate/csv-uploader.tsx:28-30 | a file whose header line ends in `\r\n` has the same header names as with `\n` alone |
| CsvUploader.CellsCarriageReturn | components/automate/csv-uploader.tsx:30 | a `\r` ending a line changes none of its trimmed cells |
| CsvUploader.HandleFileUpload | components/automate/csv-uploader.tsx:17-42 | no file: nothing happens; a name not ending in `.csv` is rejected with "Please upload a CSV file" and nothing is parsed; otherwise the parsed records are uploaded |
| Text.Split | components/automate/csv-uploader.tsx:29 | `split` gives at least one piece; no piece holds the separator; joining the pieces gives back the text |
| Text.SplitJoin | lib/utils/export.ts:25 | splitting a join of separator-free pieces gives the pieces back |
| PreviewEmail.TokenFor | components/automate/preview-email.tsx:30 | the token is the placeholder inside two pairs of braces |
| PreviewEmail.NoOccurrenceUnchanged | components/automate/preview-email.tsx:30 | a global replace of a pattern that does not occur changes nothing |
| PreviewEmail.ReplaceBySelf | components/automate/preview-email.tsx:30 | replacing a pattern by itself changes nothing |
| PreviewEmail.ReplaceConcat | components/automate/preview-email.tsx:30 | when no occurrence of the pattern crosses the border, a global replace in a concatenation is the replace in each part |
| PreviewEmail.OpenBracesBlockStraddle | components/automate/preview-email.tsx:30 | text starting with `{{` cannot complete an occurrence of a `{`-free token begun before it |
| PreviewEmail.TokenReplaced | components/automate/preview-email.tsx:30 | every occurrence of a token with a `{`-free name becomes the value wherever it stands; the text on either side is replaced on its own |
| PreviewEmail.OtherTokenNoMatch | components/automate/preview-email.tsx:30 | a token of another brace-free name holds no occurrence of the replaced token and ends none |
| PreviewEmail.OtherTokenKept | components/automate/preview-email.tsx:30 | replacing one token leaves a token of another brace-free name as written wherever it stands; the text on either side is replaced on its own |
| PreviewEmail.OtherTokenFirst | components/automate/preview-email.tsx:30 | text starting with another brace-free name's token keeps that token and is replaced after it |
| PreviewEmail.ReplaceAfterPlain | components/automate/preview-email.tsx:30 | text holding no first character of the pattern is copied, and the pattern after it is replaced |
| PreviewEmail.SpacedTokenKept | components/automate/preview-email.tsx:30 | a spaced token `{{ p }}` is left verbatim |
| PreviewEmail.RenderContent | components/automate/preview-email.tsx:24-33 | `''` without a template; otherwise every mapping entry is substituted in entry order; the content is unchanged with no mappings |
| PreviewEmail.UnmappedTokensKept | components/automate/preview-email.tsx:28-31 | content holding no mapped token is shown unchanged, so unmapped tokens stay verbatim |
| PreviewEmail.UnmappedTokenStays | components/automate/preview-email.tsx:28-31 | with brace-free placeholders, a token whose brace-free name no entry maps stays as written wherever it stands, and the text on either side is rendered on its own |
| PreviewEmail.RenderedConcat | components/automate/preview-email.tsx:28-31 | substituting two runs of entries is substituting the first run, then the second |
| PreviewEmail.OwnEntrySubstitutes | components/automate/preview-email.tsx:28-31 | with brace-free placeholders, right after the first entry for a placeholder its token, wherever it stands, holds the value and the text on either side is rendered on its own |
| PreviewEmail.MappedTokenSubstituted | components/automate/preview-email.tsx:28-31 | with brace-free placeholders, every occurrence of a mapped token becomes its value: the earlier entries leave it as written, its own entry puts the value in, the later entries apply to the whole |
| PreviewEmail.ChainedSubstitution | components/automate/preview-email.tsx:27-31 | substitution is sequential: a value holding a later entry's token is itself replaced |
| PreviewEmail.RecipientLabel | components/automate/preview-email.tsx:35-40 | the displayed recipient is never empty |
| PreviewEmail.AsRowCells | components/automate/preview-email.tsx:35-40 | a preview value read as a CSV cell is truthy exactly when it is non-empty, and prints as itself |
| PreviewEmail.RecipientLabelMatchesRequest | components/automate/preview-email.tsx:35-40 | the displayed recipient is the first truthy of `email`, `email_address`, `Email`, `EMAIL` (the priority list the request uses), else `'Recipient'` |
| Ordering.Insert | lib/utils/contacts.ts:35-39 | inserting into a sorted list keeps it sorted and adds exactly the element |
| Ordering.SortByKey | lib/utils/contacts.ts:35-39 | the result is ordered by the key and is a permutation of the input |
| Contacts.FilterContacts | lib/utils/contacts.ts:12-33 | after the day and search filters, each contact is kept exactly when it passes both, as often as in the input |
| Contacts.SortedBySentAt | lib/utils/contacts.ts:35-39 | a list ordered by the sort key is ordered by send time, rising for `asc` and falling for `desc` |
| Contacts.FilterAndSortContacts | lib/utils/contacts.ts:3-40 | the result holds exactly the contacts inside the day window (inclusive) that match the search, each as often as in the input; sent times are non-decreasing for `asc` and non-increasing for `desc`; with no filter it is a permutation of the input |
| Contacts.SearchIgnoresCase | lib/utils/contacts.ts:25-31 | an upper-cased query keeps the same contacts |
| LogSorting.FilterLogs | lib/utils/sorting.ts:11-26 | after the 24-hour and day filters, each log is kept exactly when it passes both, as often as in the input |
| LogSorting.SortedByLogKey | lib/utils/sorting.ts:28-44 | a list ordered by the sort key is ordered by time or by collated lower-cased status, rising or falling as asked |
| LogSorting.FilterAndSortLogs | lib/utils/sorting.ts:3-45 | the result holds exactly the logs that pass the filters, each as often as in the input; the filters are the last 24 hours unless all logs are shown, and the selected day; it is ordered by time, or by lower-cased status under the collation, ascending or descending; with all logs shown and no day it is a permutation of the input |
| Export.HeaderLine | lib/utils/export.ts:6-23 | the header line is exactly `Sent Time,Email Address,Name,Template`, unquoted |
| Export.DataLine | lib/utils/export.ts:14-24 | a contact's line is four double-quoted cells separated by commas: formatted send time, address, name or `''`, template name |
| Export.DataLines | lib/utils/export.ts:14-24 | one line per contact, in input order |
| Export.ContentLines | lib/utils/export.ts:22-25 | when no cell holds a line break, the content splits into the header line and one line per contact, with no trailing newline |
| Export.LinesAreSingle | lib/utils/export.ts:22-25 | when no cell holds a line break, neither the header line nor any contact's line does |
| Export.HeaderIsOneLine | lib/utils/export.ts:6-11 | the header line holds no line break |
| Export.DataLineIsOneLine | lib/utils/export.ts:24 | a line built from cells without line breaks holds none |
| Export.EmptyExport | lib/utils/export.ts:22-25 | an empty contact list exports only the header line |
| Export.QuotesNotDoubled | lib/utils/export.ts:24 | an embedded double quote is written as it is, not doubled as section 2, rule 7 of RFC 4180 asks |
| Export.DownloadName | lib/utils/export.ts:4-33 | the file name is the filename (default `contacts`), `_`, the formatted date, then `.csv`: it starts with the name and `_`, ends with `.csv`, and holds exactly the formatted date between them |
| ApiKey.AlphabetIsChars | lib/utils/api-key.ts:2 | the alphabet has 62 characters: `A`-`Z`, then `a`-`z`, then `0`-`9` |
| ApiKey.AlphabetIndex | lib/utils/api-key.ts:2-6 | every alphabet character has a position the draws can pick |
| ApiKey.GenerateApiKey | lib/utils/api-key.ts:1-9 | the key is 36 characters long and starts with `nib_`; character `4 + i` is the alphabet character at draw `i` |
| ApiKey.IndicesOf | lib/utils/api-key.ts:6 | the alphabet positions of a key's characters |
| ApiKey.EveryKeyReachable | lib/utils/api-key.ts:4-7 | every well-formed key is produced by some draws |
| ApiKey.KeyCharsAlphanumeric | lib/utils/api-key.ts:2-6 | after the prefix a key holds only ASCII letters and digits |
| ApiKey.DrawsDetermineKey | lib/utils/api-key.ts:5-7 | different draws give different keys |
| Middleware.SetParamPosition | app/middleware.ts:25 | `searchParams.set` puts the value where the first pair of that name was, or appends it when there was none |
| Middleware.SetParamOnlyOne | app/middleware.ts:25 | after `searchParams.set` exactly one pair carries the name |
| Middleware.SetParamOthers | app/middleware.ts:25 | `searchParams.set` keeps every pair of another name, in order |
| Middleware.SetDropsRepeats | app/middleware.ts:25 | two pairs of the name set collapse into the single pair set |
| Middleware.RepeatedRedirectedFrom | app/middleware.ts:14-27 | a signed-out visit to a protected page whose query repeats `redirectedFrom` is redirected with only `redirectedFrom=<page>` |
| Middleware.Decide | app/middleware.ts:5-37 | without a session, a protected path redirects to `/auth` with exactly one `redirectedFrom`, set to the path, and every other query pair kept in order; with a session, a path under `/auth` redirects to `/dashboard`; otherwise the request passes through |
| Middleware.NeverCrossRedirect | app/middleware.ts:14-30 | a signed-in request is never sent to `/auth`; a signed-out one never to `/dashboard` |
| Middleware.TargetsPassThrough | app/middleware.ts:14-30 | `/auth` is not protected and `/dashboard` is not under `/auth` |
| Middleware.NoRedirectLoop | app/middleware.ts:14-36 | following a redirect with the same session passes the guard |
| Middleware.PlainPrefixMatching | app/middleware.ts:15-30 | matching is a plain prefix test: `/docsX` is protected and `/authorize` counts as the sign-in page |

## Left out

- Ordering.SortByKey: does not state the relative order of entries with equal keys. The source relies on `Array.prototype.sort`, which is stable, but the model promises only sorted order and a permutation.
- Contacts.FilterAndSortContacts: the day bounds and send times are integers. Parsing `sent_at`, `setHours` in local time and invalid dates are not modelled.
- LogSorting.FilterAndSortLogs: `localeCompare` is a collation key passed in, and `Date.now()` is the `now` parameter. An undefined `showAllLogs` is modelled as `false`.
- Email.CreateEmailRequest: requires at least one row when there are mappings and a template. The source then reads `csvData[0]` and throws a `TypeError`; that crash is not modelled as an outcome.
- Email.Stringify: numeric cells are safe integers, within `Number.MAX_SAFE_INTEGER` (2^53 - 1) of zero, where `toString` prints the exact decimal digits. Fractional, infinite and NaN numbers are not modelled, nor larger integers: JavaScript holds those rounded, so their `toString` need not give the digits of the integer meant, and from 10^21 up it uses exponent form (`1e+21`).
- PreviewEmail.RenderContent: the model substitutes a placeholder's token as plain text. The source splices the placeholder into `RegExp` unescaped, so a placeholder holding regular-expression metacharacters, or one made of digits (`1`, `1,`, `1,2`), matches something else: the token's braces then read as a quantifier (`{{1}}` matches `{}`, not `{{1}}`), and the source leaves such a token unreplaced. A placeholder with an unbalanced `(`, `)` or `[` (the placeholder `:)` extracted from `{{ :) }}`, say) is not a valid regular expression at all: `new RegExp` throws a `SyntaxError` and the preview fails instead of substituting. Values are assumed to hold no `$` replacement patterns, which `replace` would expand.
- CsvUploader.RecordKeys: a record is modelled as its entries in insertion order. A JavaScript object lists integer-like keys (a header `2024`, a placeholder `1`) first, in ascending order, whenever it is iterated; the model does not reorder them. Keys inherited from `Object.prototype` are not modelled either.
- Email.Parameters: the parameters are listed in mapping-entry order; the source's `Object.entries(fieldMappings)` lists integer-like placeholders first.
- Email.RequestParameters: the same integer-like key order is not modelled for the request's parameter object.
- PreviewEmail.RenderContent: mapping entries are substituted in insertion order; the source's `Object.entries` substitutes integer-like placeholders first, which changes the result where one value holds another placeholder's token.
- FieldMapping.FindMatchingFields: the mapping's keys keep placeholder order; the source object lists integer-like placeholders first.
- CsvUploader.HandleFileUpload: reading the file (`file.text()`), the catch branch, the loading and file-name state and the toasts are not modelled. The file's text is an input.
- Export: the Blob, link element and click that download the file are not modelled (lib/utils/export.ts:28-38). `formatDate` is a parameter because its module is not part of this model.
- ApiKey.GenerateApiKey: `Math.random` is replaced by the 32 draws passed in.
- Middleware.Decide: creating the Supabase client and reading the session are not modelled; the session's presence is an input. The `config.matcher` list and the HTTP status of the redirect are not modelled.
- The copies the sorting functions make (`[...contacts]`, `[...logs]`) are implicit: the model works on values, so the input is never changed.
- Case mapping is ASCII only.
- The React rendering of the preview and uploader components, and the unsanitised HTML the preview injects, are not modelled.
