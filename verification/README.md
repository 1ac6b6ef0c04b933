# Bopepo PDF template binder — a Dafny model

This project models the two classes of `org.jrimum.bopepo.pdf` that fill a
PDF form template:

- **`PdfDocInfo`** holds the document metadata. It is one map under
  fixed keys: `Title`, `Author`, `Subject`, `Keywords`, `Creator`,
  `CreationDate`, `ModDate` and `Producer`. Its values may be null, since a
  map handed to `create(info)` is adopted as it is.
  - Its five setters write only non-null values.
  - Its getters are plain lookups. They read null both for an absent key and
    for a key stored with a null value.
  - `toMap` hands out a copy.
  - `equals` compares the maps.
- **`PdfDocMix`** is the template binder. It holds:
  - the template bytes;
  - lazily created text and image binding maps;
  - a metadata holder;
  - three finalisation options: full compression, remove-or-flatten, and a
    tri-state "display document title" viewer preference.

  Every output request (`toBytes`, `toStream`, `toFile`) runs the whole
  cycle `process` = `init` → `fillFields` → `end` against the PDF engine
  (iText).

The engine is not modelled. Each call that changes the document or the
output is appended to a trace of `EngineOp`s (`pdf_engine.dfy`): opening
the reader and the stamper, pushing metadata and viewer preferences,
setting and replacing fields, and the finalisation, flush and close calls.
Read-only queries are not recorded:

- fetching the field accessor (`getAcroFields`) and asking it for a field's
  positions (`getFieldPositions`) are answered from the parsed `Form`,
  which reduces a template to the positions of its form fields;
- converting an image (`Image.getInstance`) is reduced to its one failure,
  a null image;
- reading the output bytes back (`toByteArray`) is the run's calls
  themselves.

Parsing is a function parameter, `parse: seq<Byte> -> Option<Form>`, where
`None` stands for a template the engine cannot read.

Vocabulary shared by all files (`lang.dfy`):

- Java `null` is `Option.None`.
- An exception is `Result.Err`/`Outcome.Fail`, reduced to its kind:
  `InvalidArgument` for an argument check, `IllegalState` for a wrapped
  engine failure.
- `java.util.Map` is the class `JavaMaps.StringMap`. Because the maps are
  objects, the aliasing the source creates stays visible: adopting a
  caller's map, handing out the live binding map, and copying in `toMap`.

The binder is a class whose methods update its fields in place:

- `Init`, `SetTextFields`, `SetImageFields`, `SetImage`, `FillFields`, `End`
  and `Process` are specified against pure functions of the binder's state:
  `InitOps`, `TextOps`, `ImageOps`, `ImagePlacement` and `EndOps`.
- The class invariant `Valid` says that the text bindings are never the
  binder's own metadata map. The holder and its map are private and never
  handed out, so no caller can pass that map in as bindings. `PutAllTexts`
  requires this of its argument. Every method that writes the metadata keeps
  the text bindings unchanged, and `PutText` keeps the metadata unchanged.
- The fill loops visit the bindings in an unspecified order, as a Java
  `HashMap` does. They return that order as a ghost value and prove that it
  lists every binding exactly once.
- Lemmas about those functions state what a run promises:
  - every text binding is set exactly once, to its value;
  - exactly the placeable images are placed;
  - texts come before images;
  - the options appear in the trace exactly when they are set;
  - the run opens first and closes last in the fixed order;
  - the creator attribution is appended again on every run.

Behaviours of the code worth stating outright:

- A text binding's value may be null. `put(name, String)` does not check the
  value, so the model accepts `None` and `setField` receives it as is.
- An empty string is stored by the metadata setters. Only null is filtered.
- A failure during the fill step stops the cycle before `end`, so nothing is
  closed. `process` has no `finally`.
- The three closes in `end` sit in one `try` block, so the first close
  failure stops the others.

## Model

| member | source | states |
|---|---|---|
| DocInfo.StoreIfPresent | src/main/java/org/jrimum/bopepo/pdf/PdfDocInfo.java:118-189 | a present value (empty string included) becomes the lookup under its key; null leaves the map identical; every other key reads as before; the key set grows by at most that key |
| DocInfo.SettersLeaveEngineKeys | src/main/java/org/jrimum/bopepo/pdf/PdfDocInfo.java:216-249 | no setter, whatever its value, changes what `Producer`, `CreationDate` or `ModDate` read |
| DocInfo.PdfDocInfo.constructor | src/main/java/org/jrimum/bopepo/pdf/PdfDocInfo.java:80-85 | the holder adopts the given map object itself |
| DocInfo.PdfDocInfo.Create | src/main/java/org/jrimum/bopepo/pdf/PdfDocInfo.java:92-95 | a new holder over a new empty map; every getter, `Producer` and both raw dates read null |
| DocInfo.PdfDocInfo.CreateFrom | src/main/java/org/jrimum/bopepo/pdf/PdfDocInfo.java:104-109 | fails with InvalidArgument exactly when the map is null; otherwise the new holder's map is the caller's map object, not a copy, null values included |
| DocInfo.PdfDocInfo.SetTitle | src/main/java/org/jrimum/bopepo/pdf/PdfDocInfo.java:118-125 | the map becomes `StoreIfPresent(old, Title, value)`; `Title()` then reads the value if non-null, else its old value |
| DocInfo.PdfDocInfo.SetAuthor | src/main/java/org/jrimum/bopepo/pdf/PdfDocInfo.java:134-141 | the same for `Author` |
| DocInfo.PdfDocInfo.SetSubject | src/main/java/org/jrimum/bopepo/pdf/PdfDocInfo.java:150-157 | the same for `Subject` |
| DocInfo.PdfDocInfo.SetKeywords | src/main/java/org/jrimum/bopepo/pdf/PdfDocInfo.java:166-173 | the same for `Keywords` |
| DocInfo.PdfDocInfo.SetCreator | src/main/java/org/jrimum/bopepo/pdf/PdfDocInfo.java:182-189 | the same for `Creator` |
| DocInfo.PdfDocInfo.Title | src/main/java/org/jrimum/bopepo/pdf/PdfDocInfo.java:191-194 | non-null exactly when the map holds `Title` with a non-null value, and then it is that value; null for an absent key and for a stored null alike |
| DocInfo.PdfDocInfo.Author | src/main/java/org/jrimum/bopepo/pdf/PdfDocInfo.java:196-199 | the same for `Author` |
| DocInfo.PdfDocInfo.Subject | src/main/java/org/jrimum/bopepo/pdf/PdfDocInfo.java:201-204 | the same for `Subject` |
| DocInfo.PdfDocInfo.Keywords | src/main/java/org/jrimum/bopepo/pdf/PdfDocInfo.java:206-209 | the same for `Keywords` |
| DocInfo.PdfDocInfo.Creator | src/main/java/org/jrimum/bopepo/pdf/PdfDocInfo.java:211-214 | the same for `Creator` |
| DocInfo.PdfDocInfo.CreationRaw | src/main/java/org/jrimum/bopepo/pdf/PdfDocInfo.java:216-219 | the same for `CreationDate` |
| DocInfo.PdfDocInfo.ModificationRaw | src/main/java/org/jrimum/bopepo/pdf/PdfDocInfo.java:226-229 | the same for `ModDate` |
| DocInfo.PdfDocInfo.Producer | src/main/java/org/jrimum/bopepo/pdf/PdfDocInfo.java:246-249 | the same for `Producer` |
| DocInfo.PdfDocInfo.ToMap | src/main/java/org/jrimum/bopepo/pdf/PdfDocInfo.java:256-259 | a new map object with exactly the holder's entries |
| DocInfo.PdfDocInfo.Equals | src/main/java/org/jrimum/bopepo/pdf/PdfDocInfo.java:280-294 | true if and only if the other holder is non-null and its map has the same entries |
| DocInfo.ChangeCopy | src/main/java/org/jrimum/bopepo/pdf/PdfDocInfo.java:256-259 | writing to the map `toMap` returned changes a distinct object, so the holder's own map is untouched |
| DocMix.MergedCreator | src/main/java/org/jrimum/bopepo/pdf/PdfDocMix.java:882-890 | the merged creator is exactly the attribution if and only if the stored creator is blank; otherwise it is longer than the stored creator by a separator and the attribution |
| DocMix.MergeKeepsCreator | src/main/java/org/jrimum/bopepo/pdf/PdfDocMix.java:882-890 | a blank creator becomes exactly the attribution; a non-blank one stays in front, followed by a space; the result always ends with the attribution and is never blank |
| DocMix.MergeIsNotIdempotent | src/main/java/org/jrimum/bopepo/pdf/PdfDocMix.java:882-890 | merging the merged creator again appends a second attribution, so two runs leave a different creator than one |
| DocMix.RunsAppendToCreator | src/main/java/org/jrimum/bopepo/pdf/PdfDocMix.java:882-890 | after n runs a non-blank creator `c` reads `c` followed by n space-separated attributions |
| DocMix.BlankCreatorRunsBehind | src/main/java/org/jrimum/bopepo/pdf/PdfDocMix.java:882-890 | n + 1 runs over a blank creator give what n runs over the bare attribution give |
| DocMix.RunsFromBlankCreator | src/main/java/org/jrimum/bopepo/pdf/PdfDocMix.java:882-890 | after n + 1 runs a blank creator reads the attribution followed by n more |
| DocMix.InitOps | src/main/java/org/jrimum/bopepo/pdf/PdfDocMix.java:872-904 | init opens the reader on the template, opens the stamper and pushes the metadata, in that order; a `ViewerPref(b)` follows if and only if the preference was set to `b`, and nothing else follows |
| DocMix.InitTouchesNoField | src/main/java/org/jrimum/bopepo/pdf/PdfDocMix.java:872-904 | init sets no field, places no image, and asks for no compression, removal or flattening |
| DocMix.TextOps | src/main/java/org/jrimum/bopepo/pdf/PdfDocMix.java:924-935 | one `SetField` per visited name, in visiting order, each with that name's bound value |
| DocMix.TextFillSetsEachBindingOnce | src/main/java/org/jrimum/bopepo/pdf/PdfDocMix.java:924-935 | whatever the iteration order, every text binding's field is set to its value, every call sets a bound name to its own value, and there are exactly as many calls as bindings |
| DocMix.ImagePlacement | src/main/java/org/jrimum/bopepo/pdf/PdfDocMix.java:964-980 | one replacement at the field's position exactly when the name is non-blank and the form has a position for it; otherwise nothing, and no error |
| DocMix.ImageOps | src/main/java/org/jrimum/bopepo/pdf/PdfDocMix.java:943-954 | an image fill makes no more calls than it visits bindings |
| DocMix.ImageOpsOnlyReplace | src/main/java/org/jrimum/bopepo/pdf/PdfDocMix.java:943-980 | every call an image fill makes is a field replacement |
| DocMix.ImageFillPlacesExactlyThePlaceable | src/main/java/org/jrimum/bopepo/pdf/PdfDocMix.java:943-980 | every replacement is for a visited, placeable name, uses that name's own image and the form's position; every visited placeable name is replaced |
| DocMix.ImageFillPlacesEachOnce | src/main/java/org/jrimum/bopepo/pdf/PdfDocMix.java:943-980 | when no binding is visited twice, every call is a replacement and no two calls replace the same field: at most one call per visited binding |
| DocMix.FillSetsTextsBeforeImages | src/main/java/org/jrimum/bopepo/pdf/PdfDocMix.java:912-916 | the fill's first calls, one per text binding, are all `SetField`; every call after them is a `ReplaceImage` |
| DocMix.EndOps | src/main/java/org/jrimum/bopepo/pdf/PdfDocMix.java:988-1015 | `FullCompression` appears if and only if enabled; `RemoveFields` appears if and only if removal is on, `Flatten` if and only if it is off; the calls end with consolidate, eliminate-shared, flush, then close output, reader, stamper |
| DocMix.EndTouchesNoField | src/main/java/org/jrimum/bopepo/pdf/PdfDocMix.java:988-1015 | end sets no field, places no image and sets no viewer preference |
| DocMix.RunOpensFirstAndClosesLast | src/main/java/org/jrimum/bopepo/pdf/PdfDocMix.java:859-864 | whatever the fill asks for, a run starts with open reader, open stamper, push metadata, and ends with the fixed close sequence |
| DocMix.RunCarriesTheOptions | src/main/java/org/jrimum/bopepo/pdf/PdfDocMix.java:859-864 | when the fill only touches fields, a run holds `ViewerPref(b)` if and only if the preference is `b`, `FullCompression` if and only if enabled, `RemoveFields` if and only if removal is on, and `Flatten` if and only if it is off |
| DocMix.RunOfCarriesTheOptions | src/main/java/org/jrimum/bopepo/pdf/PdfDocMix.java:859-864 | every complete cycle starts with open reader, open stamper and push metadata, ends with the fixed close sequence, and holds each option's call exactly when that option is set |
| DocMix.StoppedRunNeverEnds | src/main/java/org/jrimum/bopepo/pdf/PdfDocMix.java:859-864 | a cycle that the fill stopped holds only the init calls and field calls: nothing is compressed, removed, flattened, flushed or closed |
| DocMix.PdfDocMix.constructor | src/main/java/org/jrimum/bopepo/pdf/PdfDocMix.java:147-151 | adopts the template array; empty metadata, no binding maps, compression and removal on, no viewer preference, empty trace; the invariant `Valid` holds |
| DocMix.PdfDocMix.CreateWithTemplate | src/main/java/org/jrimum/bopepo/pdf/PdfDocMix.java:242-247 | fails with InvalidArgument exactly when the template is null; otherwise a fresh binder in that initial state |
| DocMix.PdfDocMix.ChangeTemplate | src/main/java/org/jrimum/bopepo/pdf/PdfDocMix.java:342-347 | fails with InvalidArgument exactly when the template is null and then keeps the old one; otherwise the template is replaced and, by its frame, nothing else changes |
| DocMix.PdfDocMix.GetTemplate | src/main/java/org/jrimum/bopepo/pdf/PdfDocMix.java:728-731 | a new array holding the template's bytes |
| DocMix.PdfDocMix.GetTextFields | src/main/java/org/jrimum/bopepo/pdf/PdfDocMix.java:437-439 | the live text binding map (or null), not a copy |
| DocMix.PdfDocMix.GetImageFields | src/main/java/org/jrimum/bopepo/pdf/PdfDocMix.java:493-495 | the live image binding map (or null), not a copy |
| DocMix.PdfDocMix.PutAllTexts | src/main/java/org/jrimum/bopepo/pdf/PdfDocMix.java:451-457 | fails with InvalidArgument exactly for a null or empty map, keeping the old bindings; otherwise the caller's map replaces all text bindings, without merging; the argument is never the binder's own metadata map, and the invariant `Valid` is kept |
| DocMix.PdfDocMix.PutAllImages | src/main/java/org/jrimum/bopepo/pdf/PdfDocMix.java:507-514 | the same for image bindings |
| DocMix.PdfDocMix.PutText | src/main/java/org/jrimum/bopepo/pdf/PdfDocMix.java:472-483 | fails with InvalidArgument exactly for a blank name, changing nothing; otherwise creates the map if absent and upserts that one binding, leaving the others unchanged; the metadata is unchanged |
| DocMix.PdfDocMix.PutImage | src/main/java/org/jrimum/bopepo/pdf/PdfDocMix.java:529-540 | the same for one image binding |
| DocMix.PdfDocMix.WithFullCompression | src/main/java/org/jrimum/bopepo/pdf/PdfDocMix.java:559-562 | sets the compression option and nothing else |
| DocMix.PdfDocMix.WithRemoveFields | src/main/java/org/jrimum/bopepo/pdf/PdfDocMix.java:576-579 | sets the remove-or-flatten option and nothing else |
| DocMix.PdfDocMix.DisplayDocTitle | src/main/java/org/jrimum/bopepo/pdf/PdfDocMix.java:606-611 | the preference becomes set, to the given value |
| DocMix.PdfDocMix.SetTitle | src/main/java/org/jrimum/bopepo/pdf/PdfDocMix.java:581-584 | the holder's map becomes `StoreIfPresent(old, Title, value)`; the text bindings are unchanged |
| DocMix.PdfDocMix.SetAuthor | src/main/java/org/jrimum/bopepo/pdf/PdfDocMix.java:586-589 | the same for `Author` |
| DocMix.PdfDocMix.SetSubject | src/main/java/org/jrimum/bopepo/pdf/PdfDocMix.java:591-594 | the same for `Subject` |
| DocMix.PdfDocMix.SetKeywords | src/main/java/org/jrimum/bopepo/pdf/PdfDocMix.java:596-599 | the same for `Keywords` |
| DocMix.PdfDocMix.SetCreator | src/main/java/org/jrimum/bopepo/pdf/PdfDocMix.java:601-604 | the same for `Creator` |
| DocMix.PdfDocMix.Init | src/main/java/org/jrimum/bopepo/pdf/PdfDocMix.java:872-904 | fails with IllegalState exactly when the template does not parse, and then changes nothing; otherwise merges the attribution into the stored creator, records the parsed form, and appends `InitOps` over the merged metadata; the text bindings are unchanged |
| DocMix.PdfDocMix.SetTextFields | src/main/java/org/jrimum/bopepo/pdf/PdfDocMix.java:924-935 | returns an order listing every text binding exactly once; the trace grows by `TextOps` in that order |
| DocMix.PdfDocMix.SetImage | src/main/java/org/jrimum/bopepo/pdf/PdfDocMix.java:964-980 | the trace grows by `ImagePlacement` for that name and image |
| DocMix.PdfDocMix.SetImageFields | src/main/java/org/jrimum/bopepo/pdf/PdfDocMix.java:943-954 | succeeds exactly when no image binding is null, and then the order lists every binding once; on a null image it fails with IllegalState after placing only the non-null bindings visited before it; the order never repeats a name; the trace grows by `ImageOps` over the visited order |
| DocMix.PdfDocMix.FillFields | src/main/java/org/jrimum/bopepo/pdf/PdfDocMix.java:912-916 | all text calls, one per binding, then the image calls over an order without repeats; the binder's state other than the trace is unchanged; fails exactly when an image binding is null |
| DocMix.PdfDocMix.End | src/main/java/org/jrimum/bopepo/pdf/PdfDocMix.java:988-1015 | the trace grows by `EndOps` for the current options; nothing else changes |
| DocMix.PdfDocMix.Process | src/main/java/org/jrimum/bopepo/pdf/PdfDocMix.java:859-864 | succeeds exactly when the template parses and no image is null; then the calls added form one full run over the binder's state; when the fill fails instead, the calls added are exactly the init calls and the fill calls made before the null image, with no `end`; an unparsable template leaves everything untouched; a parsed one always merges the creator, even when the fill fails; the text bindings are unchanged |
| DocMix.PdfDocMix.ToBytes | src/main/java/org/jrimum/bopepo/pdf/PdfDocMix.java:700-718 | one full cycle; its output is exactly the calls of that run; any failure becomes IllegalState, and a fill failure leaves the stopped cycle's calls in the trace; the text bindings are unchanged |
| DocMix.PdfDocMix.ToStream | src/main/java/org/jrimum/bopepo/pdf/PdfDocMix.java:672-690 | the same cycle and outcome as `ToBytes` |
| DocMix.PdfDocMix.ToFile | src/main/java/org/jrimum/bopepo/pdf/PdfDocMix.java:623-662 | a null or blank path fails with InvalidArgument before any engine call, changing nothing; otherwise the same cycle and outcome as `ToBytes`; in particular an unparsable template then leaves trace, form and metadata unchanged |

## Left out

- Templates read from a URL, an `InputStream`, a `File` or a path (the
  other constructors, `createWithTemplate`, `changeTemplate` and
  `setTemplate` overloads). They are file and network I/O. Only the
  `byte[]` forms are modelled.
- The private no-argument constructors of both classes. They only throw.
- `toFile(File)` writing the bytes to disk (`Files.bytesToFile`), and
  `toStream` wrapping them (`Files.bytesToStream`). This is I/O; the output
  is the run's calls.
- `creation()` and `modification()` decode the raw dates with `PdfDate`, a
  foreign parser. Only the raw accessors are modelled.
- `hashCode`, `toString` and logging. They are not behaviour the binder
  relies on.
- `DocInfo.PdfDocInfo.Equals`: only compares against another `PdfDocInfo`
  or null. The `getClass` test against other types is not modelled.
- Null keys in a map handed to `create(info)`, `putAllTexts` or
  `putAllImages`. Keys are non-null strings in the model.
- The PDF engine itself: how bytes are parsed, stamped, compressed,
  flattened and serialised, and what a field position's numbers mean. Each
  call is an opaque `EngineOp`, and a position is an uninterpreted list of
  numbers.
- `DocMix.PdfDocMix.Init`: the only engine failure modelled is a template
  that does not parse. A failure to open the stamper is not modelled.
- `DocMix.PdfDocMix.SetTextFields`: `setField` rejecting a value is not
  modelled, so a text fill always succeeds.
- `DocMix.PdfDocMix.SetImage`: a failure inside `changeFieldToImage` is not
  modelled. The only image failure is a null image rejected by
  `Image.getInstance`.
- `DocMix.PdfDocMix.End`: flush and close failures are not modelled, so
  `end` always completes. In the code, one `try` block would stop at the
  first failing close.
- The Java exception classes are collapsed into two kinds,
  `InvalidArgument` and `IllegalState`, and their messages are dropped.
- `Lang.IsWhitespace` follows `Character.isWhitespace` over the fixed set
  of code points listed in its comment. Differences between the Unicode
  versions of different Java releases are not tracked.
- `DocMix.PdfDocMix.constructor`: takes a non-null array. A constructor
  that can fail cannot be expressed, so the public constructor's null check
  is modelled only in `CreateWithTemplate`, which performs the same check.
- `DocMix.RunsAppendToCreator`: n runs are stated over the creator alone
  (`CreatorAfterRuns`). `Process` states one run's merge, and the lemma
  iterates that step, but no lemma chains n calls of `Process` on one
  binder.
