# Print Schema document layer of winprint

winprint drives Windows printers. This project models the part of it that
is independent of the operating system: the Print Schema document layer.

A Print Schema document is either a PrintCapabilities or a PrintTicket XML
tree. Both are built from Features, Options, ScoredProperties, Properties,
ParameterDefs and ParameterInits. Every node is named by an XML qualified
name in the Print Schema Framework (`psf`) or Keywords (`psk`) namespace.

The model covers:

- **The tree and its lookups** (`PrintSchema`): the immutable recursive
  datatypes and a four-variant `PropertyValue`. The lookups are
  `default_value`, `xsi_type`, the variant accessors, `parameters_dependent`,
  `value_with`, `get_property` and `get_scored_property`.
- **The event-driven parser** (`Reader`, `XmlEvents`). The xml crate's
  lexer is replaced by a sequence of reader events. One step function has
  the loop's explicit stacks and single slots, and `Exec`/`Run` fold it over
  the events. The imperative `Parse` method carries a loop invariant back to
  `Run`. A run ends in one of three outcomes: a document, an error, or a
  panic (one of the loop's `unwrap()` calls failing). `LegacyParser` covers
  the older duplicate parser's typed entry points.
- **The serializer** (`Serializer`). Its output is a sequence of writer
  events together with the namespace table collected on the root.
  `SerializerProperties` proves that this output is balanced, and states how
  the table grows.
- **Reading the output back** (`Lexer`, `ReadBack`, `RoundTrip`,
  `WrittenQNames`). `Lexer` models what the xml crate's reader makes of the
  writer's events. `ReadBack` defines the document the reader rebuilds.
  The serializer writes a qualified-name value with the name's `Display`,
  `{uri}prefix:local`, and the model's writer does the same. `parse_qname`
  reads that text back as the same name only when the name has no
  namespace. So `RoundTrip` proves its round trip for documents whose
  qualified-name values have no namespace. For those, writing a document
  whose names resolve and reading it back yields exactly the rebuilt
  document, and that is the original document precisely when no value is
  followed by children that clear it. `WrittenQNames` covers every other
  document. There, each qualified-name value comes back as whatever
  `parse_qname` reads from its `Display` text. Serializing, parsing and
  serializing again still gives the same output, which is all the
  serializer's own tests check. A keyword-valued property is the worked
  example: it comes back changed, yet it serializes to the same output.
- **Typed feature-option packs** (`FeatureOptionPack`, `PageMediaSize`,
  `PageResolution`) and the predefined-name enums (`PredefinedNames`).
- **Small arithmetic and selection rules**: `MediaSize` (micron/millimetre
  sizes and their centimetre `Debug` text), `Copies` (a copy count as a
  ticket), `PageImageableSize` (reading the imageable area from a parsed
  capabilities tree), and `RasterDpi` (the DPI choice made by the DXGI and
  WinPDF printers).

Integers are modelled explicitly:

- `i32`, `u32`, `i16` and `u16` are subset types of `int`.
- `as u32` on an `i32` is written out as two's-complement reinterpretation (`Integers.AsU32`).
- Rust's `i32::from_str` and `to_string` are modelled digit by digit (`Integers.ParseI32`, `Integers.I32ToString`).

## Model

| member | source | states |
|---|---|---|
| PrintSchema.DefaultValue | src/ticket/document/print_schema.rs:141-148 | the result is the value of the first PSF `DefaultValue` property, or None when no property has that name |
| PrintSchema.DefaultValueFirstMatchOnly | src/ticket/document/print_schema.rs:141-148 | a first `DefaultValue` property without a value hides every later one with a value |
| PrintSchema.XsiType | src/ticket/document/print_schema.rs:153-162 | the three built-in variants get `xsd:string`, `xsd:integer` or `xsd:QName` in the XSD namespace; `Unknown` gets its stored type; the local name tells the variant apart in both directions |
| PrintSchema.StringOf | src/ticket/document/print_schema.rs:164-169 | Some exactly for a `String` value, holding its text |
| PrintSchema.IntegerOf | src/ticket/document/print_schema.rs:170-176 | Some exactly for an `Integer` value, holding its number |
| PrintSchema.QualifiedNameOf | src/ticket/document/print_schema.rs:177-183 | Some exactly for a `QName` value, holding its name |
| PrintSchema.ScoredParametersDependent | src/ticket/document/print_schema.rs:199-208 | the node's own parameter reference comes first; a node with no reference and no nested scored properties depends on nothing |
| PrintSchema.ParametersDependentIsPreorder | src/ticket/document/print_schema.rs:199-208 | the dependency list is the references of the pre-order walk of nested scored properties, duplicates kept, `properties` children never visited |
| PrintSchema.ParametersDependentListIsPreorder | src/ticket/document/print_schema.rs:188-194 | over a list of scored properties, the dependency list is the references of the concatenated pre-order walks |
| PrintSchema.OptionParametersDependentConcat | src/ticket/document/print_schema.rs:188-194 | an option's dependency list distributes over concatenation of its scored properties, in order |
| PrintSchema.FindParameter | src/ticket/document/print_schema.rs:212-216 | Some exactly when some ParameterInit has the name, and then it is the first such init's value |
| PrintSchema.ValueWith | src/ticket/document/print_schema.rs:211-220 | without a reference the inline value is returned; with one, the value of the first init of that name, or None |
| PrintSchema.ValueWithIgnoresInlineValue | src/ticket/document/print_schema.rs:211-220 | when a reference is set, changing the inline value never changes the result |
| PrintSchema.GetProperty | src/ticket/document/print_schema.rs:268-272 | Some exactly when some property matches local name and namespace, and then it is the first match |
| PrintSchema.GetPropertyMatchesNamespace | src/ticket/document/print_schema.rs:268-272 | a found property has the asked namespace, so asking for None finds only names without a namespace |
| PrintSchema.GetScoredProperty | src/ticket/document/print_schema.rs:241-247 | Some exactly when a named scored property matches, and then it is the first match; an anonymous scored property is never returned |
| Reader.ParseQName | src/ticket/document/reader.rs:57-74 | with a colon, the prefix is the text before the first colon, the local name the rest, and the namespace is the prefix's binding (None when unbound); without one, the bare local name |
| Reader.ParseNameAttribute | src/ticket/document/reader.rs:76-85 | None exactly when no attribute is a namespace-less `name`; otherwise the parsed value of such an attribute |
| Reader.ParseTypeAttribute | src/ticket/document/reader.rs:87-96 | None exactly when no attribute is `type` in the XSI namespace; otherwise the parsed value of such an attribute |
| Reader.DecodeValue | src/ticket/document/reader.rs:106-128 | `xsd:string` and `xsd:QName` decode to their variants; `xsd:integer` fails with "Invalid integer" exactly when the text is not an `i32`; any other type gives `Unknown(type, text)`; it never panics |
| Reader.RunErrorsAreReaderErrors | src/ticket/document/reader.rs:162-452 | the document parse only ever fails with invalid XML or invalid Print Schema, never with a wrong document type |
| Reader.Parse | src/ticket/document/reader.rs:133-452 | the loop over the event stream computes the same outcome as the fold `Run` |
| Reader.ParseCapabilities | src/ticket/document/reader.rs:455-469 | Ok exactly when the document parse gives a capabilities root; a ticket root gives `WrongDocumentType("PrintCapabilities", "PrintTicket")`; errors and panics pass through |
| Reader.ParseTicket | src/ticket/document/reader.rs:471-487 | Ok exactly when the document parse gives a ticket root; a capabilities root gives `WrongDocumentType("PrintTicket", "PrintCapabilities")`; errors and panics pass through |
| Reader.RunIgnoresRest | src/ticket/document/reader.rs:286-301 | once the parse has returned, the events after that point do not matter |
| Reader.EndWithoutRootRejected | src/ticket/document/reader.rs:443-451 | end of document before any root has closed is "No valid root element found" |
| Reader.LexErrorRejected | src/ticket/document/reader.rs:163-166 | a lexer error before the root closes is reported as invalid XML |
| Reader.RootOnlyAtTop | src/ticket/document/reader.rs:177-201 | a PrintCapabilities or PrintTicket start is rejected exactly when it is not the outermost element, with the source's reason |
| Reader.UnknownElementRejected | src/ticket/document/reader.rs:272-277 | any PSF element outside the vocabulary is rejected as "Invalid element" |
| Reader.ForeignElementsSkipped | src/ticket/document/reader.rs:173-175 | a start or end tag outside the PSF namespace changes only the depth; an end at depth 0 underflows and panics |
| Reader.NamelessFeatureOrPropertyRejected | src/ticket/document/reader.rs:209-252 | a Feature or Property start fails exactly when it has no `name` attribute, with the source's reason |
| Reader.NamelessParameterPanics | src/ticket/document/reader.rs:302-320 | closing a ParameterDef or ParameterInit that had no name panics |
| Reader.MisplacedParameterRejected | src/ticket/document/reader.rs:307-337 | one step: closing a ParameterDef while no definition list is open, or a ParameterInit while no initialisation list is open, is rejected as "cannot be here" |
| Reader.ParameterInitNeedsValue | src/ticket/document/reader.rs:322-329 | a ParameterInit closing with no decoded value is "ParameterInit value not found" |
| Reader.TextAccumulates | src/ticket/document/reader.rs:428-442 | outside a typed Value text changes nothing; inside one, characters and CDATA append verbatim and whitespace appends exactly one space |
| Reader.UntypedValueIgnored | src/ticket/document/reader.rs:260-271 | a Value without `xsi:type` only changes the depth, at its start and at its end |
| Reader.ValueEndDecodes | src/ticket/document/reader.rs:419-423 | closing a typed Value stores its decoded value in the pending slot, or fails with "Invalid integer" |
| Reader.RootEndReturnsDocument | src/ticket/document/reader.rs:286-301 | the root's end tag returns the document built from the top containers |
| LegacyParser.AndThen | src/ticket/print_schema_parser.rs:426-433 | `Result::and_then` over the three outcomes: Ok continues, an error and a panic pass through |
| LegacyParser.ParseAsCapabilities | src/ticket/print_schema_parser.rs:423-433 | the older entry point is Ok exactly for a capabilities root; a ticket root gives `WrongDocumentType`; errors and panics pass through |
| LegacyParser.ParseAsTicket | src/ticket/print_schema_parser.rs:435-445 | the older entry point is Ok exactly for a ticket root; a capabilities root gives `WrongDocumentType`; errors and panics pass through |
| LegacyParser.ExactlyOneKind | src/ticket/print_schema_parser.rs:423-445 | on a document that parses, exactly one of the two typed parses succeeds |
| Serializer.CollectName | src/ticket/print_schema_serializer.rs:280-284 | a name adds a binding only when it has both a prefix and a namespace; earlier bindings are never overwritten |
| Serializer.CollectValue | src/ticket/print_schema_serializer.rs:249-254 | after a value, the table binds `psf` and `xsi`, and keeps every earlier binding |
| Serializer.DocumentTable | src/ticket/print_schema_serializer.rs:29-37 | the root's table always maps `psf` to the Print Schema Framework namespace |
| SerializerProperties.ToXmlBalanced | src/ticket/print_schema_serializer.rs:39-59 | the whole output is balanced; it starts with one `psf:PrintCapabilities` or `psf:PrintTicket` element with `version="1"` and ends with its close |
| SerializerProperties.CapabilitiesXmlBalanced | src/ticket/print_schema_serializer.rs:39-59 | a capabilities document is written as a balanced event sequence |
| SerializerProperties.TicketXmlBalanced | src/ticket/print_schema_serializer.rs:72-92 | a ticket document is written as a balanced event sequence |
| SerializerProperties.FeatureBalanced | src/ticket/print_schema_serializer.rs:104-115 | a feature, with its options, properties and sub-features, is written balanced |
| SerializerProperties.ScoredBalanced | src/ticket/print_schema_serializer.rs:201-221 | a scored property, with its reference, value and children, is written balanced |
| SerializerProperties.PropertyBalanced | src/ticket/print_schema_serializer.rs:234-246 | a property, with its value and sub-properties, is written balanced |
| SerializerProperties.OptionBalanced | src/ticket/print_schema_serializer.rs:170-180 | an option is written balanced |
| SerializerProperties.ValueBalanced | src/ticket/print_schema_serializer.rs:256-277 | a value is written as one open, one text and one close |
| SerializerProperties.StrayCloseUnbalanced | src/ticket/print_schema_serializer.rs:104-115 | balance means something: a lone end element is not balanced |
| SerializerProperties.ValueBindings | src/ticket/print_schema_serializer.rs:249-254 | a value binds `psf` and `xsi`, binds `xsd` for the built-in types, and binds an `Unknown` type's own prefix |
| SerializerProperties.QNameInnerNameNotCollected | src/ticket/print_schema_serializer.rs:249-254 | the name inside a QName value contributes no binding |
| SerializerProperties.PartialNameAddsNothing | src/ticket/print_schema_serializer.rs:280-284 | a name missing its prefix or its namespace leaves the table unchanged |
| SerializerProperties.FullNameBindsPrefix | src/ticket/print_schema_serializer.rs:280-284 | a fresh prefix with a namespace is bound to that namespace |
| SerializerProperties.FirstBindingWins | src/ticket/print_schema_serializer.rs:280-284 | a prefix already bound keeps its first namespace |
| RoundTrip.FormatNameParses | src/ticket/print_schema_serializer.rs:286-293 | `parse_qname` inverts `format_name` exactly on the names whose prefix holds no colon and resolves to the name's own namespace |
| RoundTrip.DecodeValueText | src/ticket/print_schema_serializer.rs:256-277 | the value decoder reads each variant back from its type attribute and written text, when a qualified-name value has no namespace |
| RoundTrip.DecodeWrittenValue | src/ticket/print_schema_serializer.rs:256-277 | for every value as written, a qualified name comes back as `parse_qname` of its `Display` text and every other variant comes back as itself |
| RoundTrip.DecodeCorrectedValueText | src/ticket/print_schema_serializer.rs:268-270 | with the qualified name written by `format_name`, every variant comes back as itself, namespace or not |
| RoundTrip.DisplayWithoutNamespace | src/ticket/print_schema_serializer.rs:268-270 | without a namespace, `Display` spells a name as `format_name` does |
| RoundTrip.ParsedNameFormats | src/ticket/document/reader.rs:57-74 | `format_name` spells again any text `parse_qname` reads, and the name read resolves |
| RoundTrip.DocumentReadBack | src/ticket/print_schema_serializer.rs:17-27 | writing a document whose names resolve and whose qualified-name values have no namespace, and reading it back, gives the document the reader rebuilds, with values cleared where later children clear them |
| RoundTrip.DocumentRoundTrip | src/ticket/print_schema_serializer.rs:17-27 | for such a document (qualified-name values without a namespace), the read-back document equals the original exactly when no value or reference precedes children that clear it |
| RoundTrip.SerializeParseSerialize | src/ticket/print_schema_serializer.rs:314-332 | for such a document, serializing, parsing and serializing again gives the same events, as the serializer's tests check |
| RoundTrip.CapabilitiesRoundTrip | src/ticket/print_schema_serializer.rs:324-332 | for such a document, a capabilities document comes back from the typed capabilities parse, and the typed ticket parse reports the wrong document type |
| RoundTrip.TicketRoundTrip | src/ticket/print_schema_serializer.rs:314-322 | for such a document, a ticket document comes back from the typed ticket parse, and the typed capabilities parse reports the wrong document type |
| RoundTrip.ValueBeforeChildrenIsLost | src/ticket/document/reader.rs:244-258 | a property holding both a value and a sub-property comes back without its value |
| RoundTrip.QNameAsWrittenMisread | src/ticket/print_schema_serializer.rs:268-270 | a QName value with a namespace, written as the source writes it, is never read back as itself |
| RoundTrip.XsdIntegerQNameMisread | src/ticket/print_schema_serializer.rs:268-270 | the concrete case: the QName `xsd:integer` is misread |
| RoundTrip.RunStopsEarly | src/ticket/document/reader.rs:162-166 | a run that stops inside its first events ignores the events after them |
| RoundTrip.ParameterDefInTicketRejected | src/ticket/document/reader.rs:302-317 | a whole run: a ticket whose first child is a written ParameterDef fails with "ParameterDef cannot be here", whatever follows, as the test at reader.rs:513-551 expects |
| RoundTrip.ParameterInitInCapabilitiesRejected | src/ticket/document/reader.rs:318-342 | a whole run: a capabilities document whose first child is a written ParameterInit fails with "ParameterInit cannot be here", whatever follows, as the test at reader.rs:553-569 expects |
| WrittenQNames.ReparsedValueFixed | src/ticket/document/reader.rs:57-74 | a value whose qualified name has no namespace is its own read-back |
| WrittenQNames.ReparsedTable | src/ticket/print_schema_serializer.rs:29-37 | reading the qualified-name values back leaves the root's namespace table unchanged |
| WrittenQNames.WriteReparsedDocument | src/ticket/print_schema_serializer.rs:268-270 | a document and its read-back-values version are written as the same events |
| WrittenQNames.ReparsedDocumentShape | src/ticket/document/reader.rs:240-258 | reading the qualified-name values back keeps the shape the reader's rebuild needs, in both directions |
| WrittenQNames.ReparsedDocumentFixed | src/ticket/document/reader.rs:57-74 | a document whose names and values resolve is its own read-back-values version |
| WrittenQNames.WrittenDocumentReadBack | src/ticket/print_schema_serializer.rs:17-27 | writing any document as written and reading it back gives the rebuilt document with each qualified-name value read back from its `Display` text |
| WrittenQNames.SerializeParseSerializeAsWritten | src/ticket/print_schema_serializer.rs:314-332 | for the serializer as written, serializing, parsing and serializing again gives the same events, namespaced qualified-name values included |
| WrittenQNames.BracedDisplayParses | src/ticket/print_schema_serializer.rs:268-270 | the `Display` of a name with a prefix and a namespace is read back with a prefix starting with `{` |
| WrittenQNames.KeywordExampleRoundTrip | src/ticket/print_schema_serializer.rs:268-270 | a ticket holding the keyword value `psk:Y` parses back to a different document, which still serializes to the same events |
| ReadBack.DocumentFixed | src/ticket/document/reader.rs:240-258 | the reader's rebuild leaves a document unchanged exactly when no value or reference precedes children that clear it |
| ReadBack.RereadIdempotent | src/ticket/document/reader.rs:240-258 | a rebuilt document has the required shape, so rebuilding twice is rebuilding once |
| Integers.ParseI32OfToString | src/ticket/print_schema_serializer.rs:265-267 | an integer's decimal text parses back to the same `i32` |
| Integers.AsU32 | src/ticket/page_media_size.rs:29 | `as u32` keeps non-negative values and adds 2^32 to negative ones |
| PredefinedNames.DuplexTypeFromName | src/ticket/predefined_duplex_type.rs:19-25 | None outside the keywords namespace; in it, Some exactly when the local name spells a variant, and then that variant |
| PredefinedNames.PageOutputColorFromName | src/ticket/predefined_page_output_color.rs:19-25 | None outside the keywords namespace; in it, Some exactly when the local name spells a variant, and then that variant |
| PredefinedNames.PageOrientationFromName | src/ticket/predefined_page_orientation.rs:18-24 | None outside the keywords namespace; in it, Some exactly when the local name spells a variant, and then that variant |
| PredefinedNames.DuplexTypeFromStr | src/ticket/predefined_duplex_type.rs:6-15 | exactly a variant's spelling gives that variant; any other text gives None |
| PredefinedNames.PageOutputColorFromStr | src/ticket/predefined_page_output_color.rs:6-15 | exactly a variant's spelling gives that variant; any other text gives None |
| PredefinedNames.PageOrientationFromStr | src/ticket/predefined_page_orientation.rs:6-14 | exactly a variant's spelling gives that variant; any other text gives None |
| PredefinedNames.FromNameRecognisesEveryVariant | src/ticket/predefined_duplex_type.rs:19-25 | every variant is recognised from its keyword name, whatever the prefix |
| PredefinedNames.FromNameIgnoresPrefix | src/ticket/predefined_page_output_color.rs:19-25 | changing only the prefix never changes the answer |
| PredefinedNames.FromNameIsCaseSensitive | src/ticket/predefined_page_orientation.rs:18-24 | the same word in another letter case is not recognised |
| PredefinedNames.FromNameNeedsKeywordsNamespace | src/ticket/predefined_duplex_type.rs:20-24 | a variant's spelling without a namespace or in the framework namespace is not recognised |
| FeatureOptionPack.FeatureName | src/ticket/page_orientation.rs:8-12 | every pack's feature is named in the keywords namespace with prefix `psk` and the feature's own local name |
| FeatureOptionPack.FeatureNamesDistinct | src/ticket/document_duplex.rs:8-12 | two different pack kinds have different feature names |
| FeatureOptionPack.IntoOptionWithParameters | src/ticket/feature_option_pack.rs:146-148 | taking a pack apart and building it again gives the same pack |
| FeatureOptionPack.NewThenInto | src/ticket/feature_option_pack.rs:122-148 | building a pack and taking it apart gives back the option and the parameters |
| FeatureOptionPack.New | src/ticket/feature_option_pack.rs:122-124 | the pack stores exactly the given option and parameters |
| FeatureOptionPack.WithOption | src/ticket/feature_option_pack.rs:134-136 | replacing the option through `option_mut` keeps the parameters |
| FeatureOptionPack.WithParameters | src/ticket/feature_option_pack.rs:142-144 | replacing the parameters through `parameters_mut` keeps the option |
| FeatureOptionPack.DisplayName | src/ticket/feature_option_pack.rs:40-45 | Some(s) exactly when the option's first keywords `DisplayName` property holds the string s |
| FeatureOptionPack.DisplayNameFirstOnly | src/ticket/feature_option_pack.rs:40-45 | a first `DisplayName` without a string value hides any later one |
| FeatureOptionPack.List | src/ticket/feature_option_pack.rs:48-57 | one pack per option, in order, each holding the option and the default parameters for its dependency list |
| FeatureOptionPack.ListFor | src/ticket/feature_option_pack.rs:48-57 | the packs follow the options listed for the feature's own name, one each, in order |
| FeatureOptionPack.ListAppend | src/ticket/feature_option_pack.rs:48-57 | listing distributes over concatenation of the option list |
| FeatureOptionPack.TicketDocument | src/ticket/feature_option_pack.rs:60-78 | the ticket has no properties, the pack's parameters as its inits, and exactly one feature with the pack's feature name, `[option]` as options, and nothing else |
| FeatureOptionPack.TicketKeepsPack | src/ticket/feature_option_pack.rs:60-78 | the pack can be read back from the ticket it becomes |
| FeatureOptionPack.TicketOfPackOnly | src/ticket/feature_option_pack.rs:60-78 | a ticket that reads as a pack is exactly the ticket of that pack |
| FeatureOptionPack.AsPredefinedName | src/ticket/feature_option_pack.rs:87-92 | None for an anonymous option; otherwise `from_name` of the option's name |
| FeatureOptionPack.AsPredefinedOrientation | src/ticket/page_orientation.rs:8-12 | an orientation option is predefined exactly when its name is a keyword spelling an orientation |
| FeatureOptionPack.AsPredefinedOutputColor | src/ticket/page_output_color.rs:8-12 | an output-colour option is predefined exactly when its name is a keyword spelling a colour mode |
| FeatureOptionPack.AsPredefinedDuplex | src/ticket/document_duplex.rs:8-12 | a duplex option is predefined exactly when its name is a keyword spelling a duplex type |
| FeatureOptionPack.PredefinedOptionRecognised | src/ticket/feature_option_pack.rs:87-92 | an option named by an orientation keyword is recognised as that orientation |
| FeatureOptionPack.KeywordInteger | src/ticket/page_media_size.rs:17-22 | zero when no keywords scored property has the name; otherwise the first match's resolved value if it is an integer, else zero |
| PageMediaSize.Size | src/ticket/page_media_size.rs:16-30 | width and height are the resolved `MediaSizeWidth` and `MediaSizeHeight` integers, reinterpreted as `u32` |
| PageMediaSize.InlineSize | src/ticket/page_media_size.rs:16-30 | inline non-negative integers become the size in microns |
| PageMediaSize.IsoA4Size | src/ticket/page_media_size.rs:16-30 | an ISO A4 option of 210000 by 297000 microns has the size `mm(210, 297)` |
| PageMediaSize.ParameterBackedWidth | src/ticket/page_media_size.rs:17-22 | a width given through a parameter reference takes the referenced init's value |
| PageMediaSize.UnresolvedWidthIsZero | src/ticket/page_media_size.rs:20-22 | an unresolved width reference gives width 0, which is roll media |
| PageMediaSize.NegativeWidthWraps | src/ticket/page_media_size.rs:29 | a width of -1 becomes 4294967295 microns |
| PageResolution.Dpi | src/ticket/page_resolution.rs:14-28 | each axis is its keywords scored property's resolved integer, 0 when missing or not an integer, reinterpreted as `u32` |
| PageResolution.AxesIndependent | src/ticket/page_resolution.rs:14-28 | the x resolution depends only on the `ResolutionX` property and the parameters |
| PageResolution.MissingAxisIsZero | src/ticket/page_resolution.rs:21-26 | a missing `ResolutionY` gives y = 0 |
| PageResolution.NonIntegerAxisIsZero | src/ticket/page_resolution.rs:15-20 | a string `ResolutionX` gives x = 0 and leaves y alone |
| MediaSize.Micron | src/ticket/media_size_tuple.rs:6-8 | the getters return exactly the stored width and height |
| MediaSize.Mm | src/ticket/media_size_tuple.rs:9-11 | `mm(w, h)` is `micron(w*1000, h*1000)`, so dividing by 1000 recovers the millimetres exactly |
| MediaSize.MaxMmIsTight | src/ticket/media_size_tuple.rs:9-11 | 4294967 mm is the largest size whose micron value fits in a `u32` |
| MediaSize.SetWidthInMicron | src/ticket/media_size_tuple.rs:18-20 | the setter changes the width and keeps the height |
| MediaSize.SetHeightInMicron | src/ticket/media_size_tuple.rs:21-23 | the setter changes the height and keeps the width |
| MediaSize.SettersCommute | src/ticket/media_size_tuple.rs:47-56 | setting both sides in either order gives the size built from them |
| MediaSize.IsRollIffZeroSide | src/ticket/media_size_tuple.rs:24-27 | a size is roll media exactly when a side is zero |
| MediaSize.PadLeft4 | src/ticket/media_size_tuple.rs:34 | `{:0>4}` keeps the text at the end and fills with zeros in front up to four characters |
| MediaSize.CmTextRecovers | src/ticket/media_size_tuple.rs:30-41 | each centimetre text is a numeral, a point and four digits, from which the micron value is recovered |
| MediaSize.CmTextInjective | src/ticket/media_size_tuple.rs:30-41 | different micron values never print the same centimetre text |
| MediaSize.A4DebugText | src/ticket/media_size_tuple.rs:58-63 | `mm(210, 297)` prints as `MediaSizeTuple(21.0000 cm × 29.7000 cm)` |
| MediaSize.A4PlusOneDebugText | src/ticket/media_size_tuple.rs:64-67 | `micron(210001, 297001)` prints as `MediaSizeTuple(21.0001 cm × 29.7001 cm)` |
| Copies.CopiesTicket | src/ticket/copies.rs:20-32 | the ticket has one init, `psk:JobCopiesAllDocuments`, holding an integer in [0, 65535], and no properties or features |
| Copies.CopiesTicketRequests | src/ticket/copies.rs:20-32 | the copy count can be read back from the ticket |
| Copies.CopiesTicketInjective | src/ticket/copies.rs:18-32 | different copy counts give different tickets |
| PageImageableSize.U32Value | src/ticket/page_imageable_size.rs:46-48 | Some exactly for a non-negative integer value, holding it |
| PageImageableSize.GetU32Property | src/ticket/page_imageable_size.rs:39-50 | found exactly when the first keywords property of that name holds a non-negative integer; otherwise an error naming the field |
| PageImageableSize.NegativeIsFieldError | src/ticket/page_imageable_size.rs:45-49 | a negative integer is a field error, not a wrapped value |
| PageImageableSize.Child | src/ticket/page_imageable_size.rs:61-72 | found exactly when a keywords property of that name exists, and then it is the first; otherwise an error naming the field |
| PageImageableSize.GetTupleChecklist | src/ticket/page_imageable_size.rs:66-67 | a width/height pair fails exactly when one of the two fails, reporting the first failure; otherwise it is their micron size |
| PageImageableSize.ErrorIsFirstFailure | src/ticket/page_imageable_size.rs:61-81 | the read fails exactly when some lookup fails in the source's order, and reports the first failing field |
| PageImageableSize.FoundReadsEachField | src/ticket/page_imageable_size.rs:61-81 | on success, size, origin and extent come from their six named properties under `PageImageableSize` and `ImageableArea` |
| RasterDpi.DpiX | src/printer/dxgi.rs:125-132 | present exactly when the print-quality flag is set, and then the print quality |
| RasterDpi.DpiY | src/printer/dxgi.rs:133-138 | present exactly when the y-resolution flag is set, and then the y resolution |
| RasterDpi.Max | src/printer/dxgi.rs:140 | the larger of the two values, and one of them |
| RasterDpi.RasterDpiIsLargestCandidate | src/printer/dxgi.rs:139-144 | the DPI is a present value or 300 when none is present, and is at least every present value |
| RasterDpi.LargestCandidateIsUnique | src/printer/dxgi.rs:139-144 | the rule picks exactly the largest candidate |
| RasterDpi.OtherFlagsIgnored | src/printer/dxgi.rs:125-138 | flags other than the two DPI flags never change the result |
| RasterDpi.WinPdfRasterDpi | src/printer/win_pdf.rs:105-124 | the WinPDF printer's copy of the block chooses the same DPI as the DXGI printer's |

## Left out

- The xml crate's lexer and writer are abstracted. Escaping, byte
  encoding, the XML declaration, end-of-line and attribute-value
  normalisation are taken to be lossless. Their errors, and the
  `unwrap()` on the writer's result in `to_xml`, do not occur in the model.
- The xml crate's predefined `xml` and `xmlns` bindings are not modelled.
  Only the bindings the writer declares on the root are in scope when its
  output is read back.
- Text positions in parse errors are dropped. The reason strings are kept.
- `OwnedName` equality is full structural equality, prefix included.
  `Display` is modelled after the xml crate's format,
  `{namespace}prefix:local`, and is not proved against the crate.
- Lexer.ReadText: the reader may split a text run into several events.
  The model delivers one, which the parser concatenates to the same text anyway.
- `options_for_feature` and `default_parameters_for` are function
  parameters of `FeatureOptionPack.ListFor` and `FeatureOptionPack.List`,
  since their definitions are not part of this model.
- The conversion between `PrintTicket` and `PrintTicketDocument` is the
  identity at the document level: `Copies` and `FeatureOptionPack` build
  the `PrintTicketDocument`.
- `PredefinedMediaName` is not part of this model. `PageMediaSize`'s
  predefined name is reached only through the generic
  `FeatureOptionPack.AsPredefinedName` with the lookup as a parameter.
- Fetching capabilities and the device calls in `try_fetch`
  (src/ticket/page_imageable_size.rs:58-60) are left out. The model starts
  from a parsed capabilities document.
- Left out of dxgi.rs and win_pdf.rs: everything except the raster-DPI
  choice (COM, Direct3D and XPS job plumbing) and the `as f32` cast.
- MediaSize.Mm: requires both sides to be at most 4294967 mm. The source
  multiplies in `u32` and would overflow (a panic in debug builds) beyond
  that, which is not modelled.
- Serializer.DocumentTable: does not bind the namespace of a QName
  value's inner name, as in the source. The round-trip lemmas therefore
  require each such name to resolve through bindings made elsewhere in the document.
- RoundTrip.DocumentReadBack: stated only for documents whose names
  and values resolve (`RoundTrip.DocumentResolves`). A name with an unbound
  prefix, or a value made only of whitespace, is read back as something else.
  Resolving includes that every qualified-name value has no namespace,
  because the source writes such a value with `Display`.
  `WrittenQNames.WrittenDocumentReadBack` states what comes back otherwise.
- RoundTrip.DocumentRoundTrip: covers only qualified-name values without a
  namespace, for the same reason.
- RoundTrip.SerializeParseSerialize: covers only qualified-name values
  without a namespace; `WrittenQNames.SerializeParseSerializeAsWritten`
  covers the rest.
- RoundTrip.CapabilitiesRoundTrip: covers only qualified-name values
  without a namespace, for the same reason.
- RoundTrip.TicketRoundTrip: covers only qualified-name values without a
  namespace, for the same reason.
- The older tree (src/ticket/print_schema.rs:96-213) has the same
  functions as src/ticket/document/print_schema.rs. Its `default_value`,
  `xsi_type`, accessors, `parameters_dependent`, `value_with`,
  `get_property` and `get_scored_property` are modelled by the same
  `PrintSchema` members.
- The older parser's loop (src/ticket/print_schema_parser.rs:104-421) is the
  newer one statement for statement, so `Reader.Run` models both. That
  covers `parse_qname` (29-46), value decoding (77-101), the root and element
  checks (146-170, 241-246), the parameter checks and panics (271-311), and
  text and termination (397-420).
- The parser panics where the source's `unwrap()` calls or its `usize`
  depth subtraction would fail (debug-build behaviour). An event list that
  ends without `EndDocument` is treated as if it ended with one.

## Findings

| source | as written | input that shows it | evidently intended | confidence | as-written member | corrected member |
|---|---|---|---|---|---|---|
| src/ticket/print_schema_serializer.rs:268-270 | a QName value's text is written with the name's `Display`, which puts the namespace in braces in front: `{uri}prefix:local` | the value `QName(xsd:integer)` is written as `{http://www.w3.org/2001/XMLSchema}xsd:integer`; reading it back splits at the first colon and gives the prefix `{http` | write the text with `format_name`, as element and attribute names are written, so that `parse_qname` reads the same name back | not executed | RoundTrip.QNameAsWrittenMisread | RoundTrip.DecodeCorrectedValueText |
