# PDF metadata editor: a Dafny model of its core

The editor runs in the browser. The user picks a PDF. The editor reads the
document's eight descriptive fields (Title, Author, Subject, Keywords,
Creator, Producer, CreationDate, ModificationDate) through the PDF library.
It shows them as text and lets the user edit them. On save it writes the
edited values back into the document, serializes it and offers the bytes
for download under a derived file name. All of this logic sits in the two
event handlers of `script.js`.

The model has six modules, one file each:

- `Options` (`options.dfy`): `Option`, the present-or-absent value the library's getters return.
- `Strings` (`strings.dfy`): JavaScript's `trim`, `toLowerCase`, `endsWith`, `split` and `join`, with their defining properties.
- `Keywords` (`keywords.dfy`): the Keywords codec. A list is shown joined with `", "`. Edited text is parsed back by splitting on `,`, trimming each piece and dropping the empty ones.
- `Metadata` (`metadata.dfy`): the fields as the library holds them (`DocInfo`, each field optional) and as the editor shows them (`TextRecord`, all text). Also extraction (`Extract`) and the effect of a commit on the fields (`ApplyForm`).
- `FileNames` (`filenames.dfy`): the download name (`ExportName`).
- `Editor` (`editor.dfy`): the mutable state.
  - `DocumentHandle` stands for the library's document object. Its setters overwrite one field each.
  - `Session` holds `pdfDoc` and `originalName`. `Load` replaces them. `Commit` writes the form into the handle setter by setter, in the source's order, and then serializes and names the download.

The host platform's pieces are parameters of the members that use them:

- `new Date(text)` followed by the `isNaN` test is `parse: string -> Option<Instant>`. `None` means "Invalid Date".
- `Date.prototype.toISOString` is `toIso: Instant -> string`.
- The library's `save` is `save: DocInfo -> Option<seq<bv8>>`. `None` means serialization failed.
- The outcome of `PDFDocument.load` comes with the selected file (`Selection.Picked`). `None` means the bytes did not parse.

An `Instant` is a JavaScript time value: whole milliseconds since the epoch, at most 8.64e15 either side of it, the range a valid `Date` holds. Within that range the real host meets the assumption `Metadata.HostRoundTrips` makes: `new Date("")` is invalid, and `new Date(d.toISOString())` gives back `d`'s time value.

Behaviours of `script.js` worth knowing, each modelled as the code has it:

- A load whose bytes do not parse keeps the previous document but has already replaced `originalName`. The assignment at script.js:31 runs before the load at script.js:36 throws. `Editor.Session.Load` states this.
- The commit's only date check is the host's permissive parse (script.js:97-101). There is no stricter check of the date format, such as `YYYY-MM-DDTHH:MM:SSZ`.
- Dates are shown in whatever form `toIso` produces. The host's `toISOString` writes milliseconds, so the form shows `YYYY-MM-DDTHH:MM:SS.sssZ`.
- Every save re-parses the Keywords field (script.js:87-91). A stored keyword list that is not already made of tokens (non-empty, trimmed, comma-free) changes on a save without edits: `["a,b"]` becomes `["a", "b"]`, and `[" a"]` becomes `["a"]`.

## Model

| member | source | states |
|---|---|---|
| `Strings.Trim` | script.js:89 | `String.prototype.trim`; the result is never longer than the input, and `TrimStartSpec`, `TrimEndSpec`, `TrimEmpty`, `TrimKeepsOut`, `TrimTrimmed` and `TrimUnique` state what it keeps and removes |
| `Strings.Join` | script.js:43 | `Array.prototype.join`; `Strings.JoinSplit` shows it undoes `Split` |
| `Strings.EndsWith` | script.js:111 | `String.prototype.endsWith`: the last characters of the string are the suffix |
| `Strings.TrimEmpty` | script.js:89-90 | the trimmed string is empty exactly when the input is all white space |
| `Strings.TrimKeepsOut` | script.js:89 | trimming adds no character: a character absent from the input is absent from the result |
| `Strings.TrimTrimmed` | script.js:89 | a trimmed string has no white space at either end |
| `Strings.TrimUnique` | script.js:89 | white space, then a string with non-blank ends, then white space, trims to exactly that middle string |
| `Strings.TrimStartSpec` | script.js:89 | leading white space is stripped and nothing more: the result is a suffix, everything removed is white space, and the result does not start with white space |
| `Strings.TrimEndSpec` | script.js:89 | trailing white space is stripped and nothing more: the result is a prefix, everything removed is white space, and the result does not end with white space |
| `Strings.Split` | script.js:88 | splitting yields at least one piece, even for the empty string |
| `Strings.SplitSeparatorFree` | script.js:88 | no piece of a split contains the separator |
| `Strings.SplitConcat` | script.js:88 | splitting text made of `a`, a separator and `b` gives the pieces of `a` followed by the pieces of `b` |
| `Strings.JoinSplit` | script.js:88 | joining the pieces of a split with the separator gives back the original string |
| `Strings.SplitNoSeparator` | script.js:88 | a string without the separator splits into itself alone |
| `Strings.SplitAtSeparator` | script.js:88 | the first separator ends the first piece |
| `Strings.Lower` | script.js:111 | ASCII lower-casing, defined character by character; `FileNames.SuffixTest` states what it means for the ".pdf" test |
| `Keywords.TrimAll` | script.js:89 | the trim map keeps the number of pieces |
| `Keywords.TrimAllPointwise` | script.js:89 | the trim map trims each piece in place |
| `Keywords.DropEmpty` | script.js:90 | the filter never lengthens the list |
| `Keywords.DropEmptySpec` | script.js:90 | a string is kept exactly when it is a non-empty piece of the input, and nothing is kept exactly when every piece is empty |
| `Keywords.Parse` | script.js:87-90 | split on commas, trim each piece, drop the empty ones; stated by `ParseTokens`, `ParseEmpty`, `ParsePiece`, `ParseConcat` and `RoundTrip` |
| `Keywords.Display` | script.js:43 | the list joined with ", "; `RoundTrip` shows parsing undoes it on tokens |
| `Keywords.TrimAllConcat` | script.js:89 | the trim map of a concatenation is the concatenation of the trim maps |
| `Keywords.DropEmptyConcat` | script.js:90 | the filter keeps order and repetition: filtering a concatenation concatenates the filtered parts |
| `Keywords.ParsePiece` | script.js:87-90 | text without a comma parses to its trimmed form alone, or to nothing when that is empty |
| `Keywords.ParseConcat` | script.js:87-90 | text before a comma and text after it parse independently, and their keywords follow each other in order, repeated ones included |
| `Keywords.ParseTokens` | script.js:87-90 | every parsed keyword is non-empty, has no white space at either end and contains no comma |
| `Keywords.ParseEmpty` | script.js:87-90 | parsing yields no keyword exactly when the text holds only commas and white space |
| `Keywords.RoundTrip` | script.js:43-90 | a list of such keywords, joined with ", " for display and parsed back, is the same list in the same order |
| `Keywords.ParseCanonical` | script.js:87-90 | parsing is a normal form: showing a parsed list and parsing it again gives the same list |
| `Keywords.ParseExample` | script.js:87-90 | "x, y ,, z" parses to ["x", "y", "z"], which is shown as "x, y, z" |
| `Metadata.Extract` | script.js:39-52 | every absent field becomes the empty string (text fields, Keywords, both dates); a present text field is shown as it is, present Keywords joined with ", ", a present date in its `toIso` form |
| `Metadata.KeywordsRecovered` | script.js:43 | the Keywords text shown for a well-formed list parses back to that list, and to the empty list when Keywords are absent |
| `Metadata.DateText` | script.js:46-51 | a present date is shown in its `toIso` form, an absent one as "" |
| `Metadata.SetDateIfValid` | script.js:97-101 | a date field takes the parsed instant when the host parse succeeds and keeps its value otherwise; `ApplyForm` states this for both dates |
| `Metadata.ApplyForm` | script.js:83-101 | a commit sets the five text fields verbatim, empty strings included, and Keywords to the parsed list; each date independently takes the parsed instant when the parse succeeds and keeps its prior value when it fails |
| `Metadata.CommitUnedited` | script.js:39-101 | when the stored Keywords are already tokens (non-empty, trimmed, comma-free), and the host parse reads back what its formatter writes and rejects "", saving without edits keeps every present field and both dates, and fills absent text fields with "" and absent Keywords with []; without the token condition a save re-splits the Keywords |
| `Metadata.CommitSettles` | script.js:39-101 | committing once more the form that re-extraction shows after a commit changes nothing |
| `Metadata.EditKeywordsExample` | script.js:39-91 | a document titled "A" without Keywords shows "A" and ""; after Keywords are edited to "x, y ,, z" and committed it holds ["x", "y", "z"], shown as "x, y, z" |
| `FileNames.BaseName` | script.js:110 | the uploaded name is used exactly when the typed name is blank; otherwise the typed name trimmed, which is then non-empty |
| `FileNames.HasPdfSuffix` | script.js:111 | the lower-cased name ends with ".pdf"; `FileNames.SuffixTest` restates it on the name's own characters |
| `FileNames.SuffixTest` | script.js:111 | a name passes the suffix test exactly when its last four characters are a dot and then p, d and f, each in either case |
| `FileNames.ExportName` | script.js:110-113 | the download name ends with ".pdf" ignoring case; it is the base name (the trimmed input, or the uploaded name when that is blank) when the base already has the suffix, and otherwise the base with ".pdf" appended |
| `FileNames.AppendedSuffix` | script.js:111-112 | appending ".pdf" always gives a name that passes the suffix test |
| `FileNames.ExportNameStable` | script.js:110-113 | deriving again, with an empty name field, from a derived name returns it unchanged |
| `FileNames.ExampleEmptyInput` | script.js:110 | an empty name field with upload "report.pdf" gives "report.pdf" |
| `FileNames.ExampleAppend` | script.js:111-112 | "out" gives "out.pdf" |
| `FileNames.ExampleUpperCase` | script.js:111 | "out.PDF" stays "out.PDF": the suffix test ignores case |
| `FileNames.ExampleTrimmed` | script.js:110-112 | "  my file  " gives "my file.pdf" |
| `FileNames.ExampleLiteralSuffix` | script.js:111-112 | "x.pdfx" gives "x.pdfx.pdf": a literal suffix test, no extension is replaced |
| `FileNames.ExampleUntrimmedOriginal` | script.js:110 | a blank name field falls back to the uploaded name " scan.Pdf", which is not trimmed and keeps its suffix |
| `Editor.DocumentHandle.constructor` | script.js:36 | a freshly loaded document holds the fields the library read |
| `Editor.DocumentHandle.SetTitle` | script.js:83 | sets Title to the given string and changes no other field |
| `Editor.DocumentHandle.SetAuthor` | script.js:84 | sets Author, nothing else |
| `Editor.DocumentHandle.SetSubject` | script.js:85 | sets Subject, nothing else |
| `Editor.DocumentHandle.SetKeywords` | script.js:91 | sets Keywords to the given list, nothing else |
| `Editor.DocumentHandle.SetCreator` | script.js:93 | sets Creator, nothing else |
| `Editor.DocumentHandle.SetProducer` | script.js:94 | sets Producer, nothing else |
| `Editor.DocumentHandle.SetCreationDate` | script.js:98 | sets CreationDate, nothing else |
| `Editor.DocumentHandle.SetModificationDate` | script.js:101 | sets ModificationDate, nothing else |
| `Editor.Session.constructor` | script.js:22-23 | the session starts with no document and an empty original name |
| `Editor.Session.Load` | script.js:26-52 | with no file nothing changes; otherwise the file name is remembered; a document that parses replaces the loaded one and its fields are extracted for display; one that does not parse leaves the previous document in place |
| `Editor.Session.Commit` | script.js:79-113 | with no document nothing changes and nothing is offered; otherwise the handle's fields become `ApplyForm` of their old values, the session's fields stay, and a successful serialization is offered under `ExportName` of the name field and the original name, while a failed one offers nothing and leaves the handle edited |

## Left out

- DOM wiring: element lookups, filling the table and the form, showing and hiding the containers and the link (script.js:5-20, 55-75, 116-119). These are presentation. The loop that builds the table rows is part of this and is not modelled.
- Reading the file's bytes and the library's `PDFDocument.load` and `save` (script.js:34, 36, 104). These are asynchronous I/O and a foreign library. The load outcome arrives with the `Selection`, and `save` is a function parameter.
- How the library itself stores Keywords. `script.js` treats `getKeywords()` as a list: it calls `.join` on it (script.js:43). The library's documentation describes `getKeywords()` as returning one string, and the library is not part of this model. If it does return a string, script.js:43 throws for every document that has Keywords. That happens after `pdfDoc` was replaced (script.js:36) and before the form is refilled (script.js:63-71), so the new document is loaded but the form still shows the previous one's fields. The model follows the list reading that `script.js` assumes and does not capture this failure.
- `Blob` and `URL.createObjectURL` (script.js:106-107). These are host artifacts. A `Download` carries only the bytes and the name.
- Real date semantics: `new Date(...)`, `isNaN` and `toISOString` (script.js:47, 50, 97-101). These are parameters. `Metadata.CommitUnedited` and `Metadata.CommitSettles` assume, in their `requires`, that the parse reads back what the formatter writes and rejects "".
- Overlapping asynchronous loads and commits (script.js:26, 79). Each handler is one atomic step. A stale load overwriting a newer one is not modelled.
- `Strings.Lower`: lower-cases only ASCII A-Z, not full Unicode `toLowerCase`. No non-ASCII character lower-cases to ".", "p", "d" or "f", so this choice does not change the ".pdf" test, but other lower-cased text would differ.
- `Strings.IsSpace` is the fixed ECMAScript white-space and line-terminator set as of current Unicode. Strings are sequences of Unicode scalar values rather than UTF-16 code units. The characters involved here are all in the Basic Multilingual Plane.
