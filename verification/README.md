# Verified models of the parser and image code

This project models the parts of the firmware that carry the most intricate state, and proves what they are for.  The
XML parser is the vendored Expat (`lib/expat`); around it stand the ZIP directory reader, the line drawing, the JPEG
down-scaler, the ditherers and the BMP writer and reader.  `dafny verify dfyconfig.toml` checks everything.

The code updates its state in place, so the models are classes with methods and loops; each is proved against a
specification on values, and what the specification means is proved in lemmas: against the standards the code
implements, by a writer for each reader, and by known answers.

| files | subject |
|---|---|
| `ContentModel`, `PrologRole`, `Scaffold`, `Counting`, `BuildModel`, `ElementDecl`, `Heap` | element declarations: grammar automaton, role handlers, scaffold of links, flattening, and the whole pipeline |
| `OpenEntities`, `AttributeValue`, `AttributeMeaning`, `DoContent`, `ContentMeaning`, `ContentParser` | entity expansion by an explicit stack in attribute values and in content, and what it yields |
| `EarlyCheck`, `SelfNaming` | when content is recursive inlining; what is left of it in a build without general entities |
| `Probing`, `HashTable`, `StringPool`, `ParseBuffer` | double hashing, string pool, sliding input buffer |
| `Namespaces`, `NsAtts`, `ContextString`, `Context` | namespace bindings, duplicate attributes, context strings |
| `SipHash`, `SipHashVectors` | streaming SipHash-2-4 and known answers |
| `DrawLine`, `ZipFile`, `ZipArchive`, `Downscale`, `Dithering`, `Bmp`, `BmpMeaning` | the firmware's own algorithms |
| `Arithmetic`, `Options` | helpers |

The platform is that of the firmware: 32-bit `int`, `unsigned` and `size_t`, and `XML_CONTEXT_BYTES` of 1024.  The
firmware builds Expat without `XML_DTD` and with `XML_GE` set to 0 (`platformio.ini:28`).  Then the text of every
entity is `&amp;name;` (`lib/expat/xmlparse.c:6258-6276`), and `SelfNaming` proves what that leaves of entity
expansion.  `OpenEntities`, `AttributeValue`, `DoContent`, `ContentParser` and `EarlyCheck` model the same functions
for every entity table, as Expat's default build with `XML_GE` set to 1 can have them, without the limits on
amplification; the firmware's tables are a special case.

Tokens are the input of the parser models: the tokenizer is not part of this model.  Memory is granted or refused by an
arbitrary oracle, hash functions are arbitrary functions, and clocks, I/O and decoded JPEG pixels are parameters.

## Findings

Each of these is a property one might expect that the code does not have; the code was modelled as it is and the exact
condition was proved.

- The level counter of the role handlers does not return to zero when a mixed model closes: `element3` and `element5`
  do not count down (`lib/expat/xmlrole.c:859-912`; `PrologRole.LevelAtTheEnd`).
- The level of an entity's text is checked before the text of a reference at its very end is read, so that a badly
  nested document is refused before some of its events are reported (`lib/expat/xmlparse.c:5738-5755`).  The code does
  recursive inlining exactly when a walk over the input, which looks at tags and levels only, loses nothing
  (`EarlyCheck.DiffersExactlyWhenLosing`), and on all documents exactly when no entity text of the table loses anything
  (`EarlyCheck.TableDecides`); `DoContent.HastyLosesText` is a document.  It takes `XML_GE` set to 1: in the firmware's
  build it cannot happen (`SelfNaming.DocumentIsInlined`).
- Two different attributes can be reported as duplicates (`lib/expat/xmlparse.c:3682-3713`; `NsAtts.StopsRightly`), in
  two ways.  Without a separator, which `lib/expat/expat.h:236-237` allows, different pairs of namespace name and local
  part can be the same string, and then the tag is refused whatever the hash (`NsAtts.FalseAlarmExists`); a separator
  that no local part holds excludes this (`NsAtts.SeparatorSplits`).  Different strings are taken for the same when
  their hashes collide and one begins with the other (`NsAtts.CollisionExists`); a separator does not exclude that
  (`NsAtts.SeparatedStopsRightly`).
- Scaling an image to more rows than it has writes fewer rows than the header says
  (`lib/JpegToBmpConverter/JpegToBmpConverter.cpp:474-528`; `Downscale.Scale`).  This happens exactly to images that are
  cropped and get taller (`Downscale.RowsAreMissing`), as 500 by 400 for a target of 480 by 800
  (`Downscale.PromisedRowsMissing`).  The reader accepts such a file and ends with a short row (`Bmp.WriteThenRead`).
- A parser that has failed does not always repeat its error.  It returns an error exactly when the attempt is made and
  its error is still set; an attempt that is put off clears the error, and from then on text is accepted until some
  other call is refused (`lib/expat/xmlparse.c:1171-1174`, `lib/expat/xmlparse.c:5780-5785`;
  `ParseBuffer.Parser.ParseBuffer`, and `ParseBuffer.ForgottenError` for a run).

No document reaches the case in which a context string does not round-trip (`ContextString.RoundTripsExactly`): names
in XML hold neither `=` nor a form feed and are not empty, and no attribute value holds a form feed.  `Context.HandOver`
takes this as given.

## Model

| member | source | states |
|---|---|---|
| ContentModel.RunPrint | lib/expat/xmlrole.c:828-984 | reading the tokens of any particle, nested to any depth and with any quantifier, adds exactly that particle to the innermost open group |
| ContentModel.RunModel | lib/expat/xmlrole.c:804-984 | reading the tokens of any content model (EMPTY, ANY, mixed, sequence, choice) completes exactly that model |
| ContentModel.StepKeepsConsumed | lib/expat/xmlrole.c:789-984 | every step that does not fail keeps the stack printable, and the print of the stack grows by exactly the token read |
| ContentModel.ErrorIs | lib/expat/xmlparse.c:5230-5240 | a parameter entity reference and a misplaced XML declaration are never taken and have errors of their own; every other token that is not taken is a syntax error |
| ContentModel.RunConsumes | lib/expat/xmlrole.c:789-984 | after any token run without error, the open groups print exactly the tokens read, and no open group mixes the two separators |
| ContentModel.SpacesDoNotMatter | lib/expat/xmlrole.c:789-984 | white space between tokens never changes the outcome |
| ContentModel.AcceptsExactlyPrintedModels | lib/expat/xmlrole.c:789-984 | a token run closes a declaration of a model if and only if it is, spaces aside, the printing of that model (sections 3.2, 3.2.1 and 3.2.2 of XML 1.0) |
| ContentModel.CompletesExactlyPrintedModels | lib/expat/xmlrole.c:789-984 | the same for the close of the outer group |
| ContentModel.PrefixDecides | lib/expat/xmlrole.c:789-984 | no prefix of a well-formed declaration is refused, and none closes it with another model |
| ContentModel.PrintingIsInjective | lib/expat/xmlrole.c:789-984 | two models with the same tokens are the same model |
| PrologRole.PrologState.TokenRole | lib/expat/xmlrole.c:789-984 | the handlers set handler, level and role as the reaction table says, for every handler, level and token |
| PrologRole.ReactFollowsStep | lib/expat/xmlrole.c:789-984 | the handlers and their level counter simulate the grammar automaton; a token fails exactly when a handler reports an error or it is the other separator than its group uses, which is then reported as a group role |
| PrologRole.RoleMeaning | lib/expat/xmlparse.c:5415-5521 | each element role says what happens to the open groups |
| PrologRole.GroupRoleMeaning | lib/expat/xmlparse.c:5255-5323 | the same for the group roles, with the level at which they arrive |
| PrologRole.LevelCountsOpenGroups | lib/expat/xmlrole.c:828-984 | over any token run the level is the number of open groups, and one more inside a mixed model |
| PrologRole.LevelAtTheEnd | lib/expat/xmlrole.c:859-984 | once the outer group is closed the level is back at zero exactly when the model is not mixed: the two handlers of mixed content do not count down |
| Scaffold.AppendKeepsTree | lib/expat/xmlparse.c:7322-7334 | a cell appended as the last child of an open group keeps the scaffold a tree |
| Scaffold.AddLeafKeepsSpine | lib/expat/xmlparse.c:5468-5492 | a leaf added to the innermost group adds one item there and leaves the items of all outer groups alone |
| Scaffold.CloseKeepsSpine | lib/expat/xmlparse.c:5505-5520 | closing a group makes it the last item of the group around it |
| ElementDecl.AppendLinks | lib/expat/xmlparse.c:7322-7334 | the first-child, last-child and next-sibling links after an append chain exactly the children of the grown tree |
| ElementDecl.Parser.GrowGroups | lib/expat/xmlparse.c:5255-5298 | connector and index buffers grow together and keep their contents; failure only when memory or a size limit is hit |
| ElementDecl.Parser.ReserveCell | lib/expat/xmlparse.c:7275-7321 | index and scaffold buffers exist and have room, old contents in front |
| ElementDecl.Parser.LinkCell | lib/expat/xmlparse.c:7322-7334 | the new cell becomes the last child of the innermost group, without links of its own |
| ElementDecl.Parser.NextScaffoldPart | lib/expat/xmlparse.c:7270-7335 | the index of a linked new cell, or -1 when memory or a size limit is hit |
| ElementDecl.Parser.OnElementName | lib/expat/xmlparse.c:5415-5424 | a declaration begins without groups |
| ElementDecl.Parser.OnEmptyOrAny | lib/expat/xmlparse.c:5426-5447 | EMPTY and ANY are reported as one cell that reads back as that model |
| ElementDecl.Parser.OnPcdata | lib/expat/xmlparse.c:5449-5454 | the outer group becomes mixed |
| ElementDecl.Parser.NewNameCell | lib/expat/xmlparse.c:5468-5489 | a name cell linked into the scaffold, its name counted with its terminator |
| ElementDecl.Parser.OnContentElement | lib/expat/xmlparse.c:5456-5492 | the scaffold represents the open groups with one more leaf, whatever its quantifier |
| ElementDecl.Parser.OnGroupOpen | lib/expat/xmlparse.c:5255-5309 | the scaffold represents the open groups with a new empty one on top |
| ElementDecl.Parser.OnGroupSequence | lib/expat/xmlparse.c:5310-5314 | refused exactly when the group already uses the other separator |
| ElementDecl.Parser.OnGroupChoice | lib/expat/xmlparse.c:5315-5323 | refused exactly when the group already uses the other separator; otherwise the group is a choice unless it is mixed |
| ElementDecl.Parser.OnGroupClose | lib/expat/xmlparse.c:5494-5521 | an inner group becomes an item with its quantifier; the outer one is reported as the model it stands for |
| ElementDecl.Parser.ReportModel | lib/expat/xmlparse.c:5510-5519 | the block handed to the application reads back as the tree of the scaffold |
| ElementDecl.Parser.ProcessToken | lib/expat/xmlparse.c:4679-4741 | handling one token keeps the parser in step with the grammar automaton, and fails only where it does or where memory is refused |
| ElementDecl.Parser.Declaration | lib/expat/xmlparse.c:5415-5521 | end to end: a declaration that is closed leaves a block that reads back as a legal model whose printing is the tokens read; the printing of any legal model is read without error and reported as that model |
| BuildModel.Build | lib/expat/xmlparse.c:7337-7459 | the flattened block has one cell per scaffold cell and one string area of the counted size, children lie in one contiguous slice in order, and following its pointers gives the scaffold tree; it fails exactly when memory or a size check does |
| BuildModel.FillSlot | lib/expat/xmlparse.c:7427-7456 | one step of the trailing pointer completes one cell, its name copied or its children queued |
| BuildModel.AppendJobs | lib/expat/xmlparse.c:7445-7455 | the leading pointer queues the children in sibling order and overwrites no queued job |
| BuildModel.CopyName | lib/expat/xmlparse.c:7435-7444 | a name and its terminator are copied to the string pointer |
| BuildModel.LeaderIsAhead | lib/expat/xmlparse.c:7427-7456 | the trailing pointer never reaches a slot before its job is written |
| BuildModel.FreshJob | lib/expat/xmlparse.c:7452-7454 | no scaffold cell is queued twice |
| BuildModel.RoomForName | lib/expat/xmlparse.c:7434-7444 | the next name fits in the string area |
| BuildModel.BuildDone | lib/expat/xmlparse.c:7419-7458 | at the end the leading pointer is at the cell count and the string pointer at the end of the string area |
| BuildModel.FilledIsGapless | lib/expat/xmlparse.c:7395-7417 | the child slices of the cells follow one another without gap or overlap |
| BuildModel.FilledReadsTree | lib/expat/xmlparse.c:7427-7456 | following the pointers of a filled cell gives the subtree of its scaffold cell |
| OpenEntities.OpenList.OpenMeansOnPath | lib/expat/xmlparse.c:5649-5705 | an entity is marked open exactly while it is on the open list (or was open outside) |
| OpenEntities.OpenList.ProcessEntity | lib/expat/xmlparse.c:5649-5705 | an entity is marked open and pushed with its whole text to go; nothing else changes |
| OpenEntities.OpenList.MarkProgress | lib/expat/xmlparse.c:5738-5749 | the text still to be read of the entity is what is behind the position reached |
| OpenEntities.OpenList.Close | lib/expat/xmlparse.c:5757-5771 | the innermost entity is closed and taken off |
| AttributeValue.Parser.Refer | lib/expat/xmlparse.c:5933-6003 | the branch taken at a reference is the one the recursive definition takes, for every declaration state |
| AttributeValue.Parser.AppendToken | lib/expat/xmlparse.c:5869-5932 | each token other than a reference adds what `AttributeMeaning.OneMeans` says, or is the error it says |
| AttributeValue.Parser.AppendAttributeValue | lib/expat/xmlparse.c:5852-6024 | a scan appends exactly the recursive expansion up to its stop: the end, an error, or an entity opened with the rest still to go |
| AttributeValue.OpenFromEntity | lib/expat/xmlparse.c:5811-5814 | opening an entity inside an entity changes nothing of what the whole stack will yield and makes the remaining work smaller |
| AttributeValue.EntityDone | lib/expat/xmlparse.c:5804-5821 | an entity scanned to its end leaves what the stack will yield, with less work |
| AttributeValue.Parser.ProcessInnermost | lib/expat/xmlparse.c:5796-5838 | one turn of the loop keeps the value still to come, or reports its error, and lowers the termination measure: it ends even for cyclic entities |
| AttributeValue.Parser.StoreAttributeValue | lib/expat/xmlparse.c:5787-5850 | for every entity table and text the explicit stack yields the recursive depth-first expansion, terminator added, or its error; the stack is left empty; what the value is, is in `AttributeMeaning.ValueMeans` |
| AttributeValue.OtherTypesNormalizeCdata | lib/expat/xmlparse.c:5846-5849 | the value for any other type is the CDATA value without leading and trailing spaces and with runs of spaces collapsed, and the errors are the same (section 3.3.3 of XML 1.0) |
| AttributeValue.ExpandCollapses | lib/expat/xmlparse.c:5852-6024 | the same at every point inside the expansion |
| AttributeMeaning.CdataMeans | lib/expat/xmlparse.c:5852-6024 | a CDATA value is the concatenation of what its tokens contribute, references replaced: one space for each character of white space or end of a line, text and characters as they are; or it is the first error among them (section 3.3.3 of XML 1.0) |
| AttributeMeaning.ValueMeans | lib/expat/xmlparse.c:5787-5850 | so the value stored, and with another type its spaces normalised |
| AttributeMeaning.OneMeans | lib/expat/xmlparse.c:5869-5932 | what one token contributes |
| AttributeMeaning.ReferenceRules | lib/expat/xmlparse.c:5933-6003 | which references stand for text, and the reason why each other one does not (section 4.1 of XML 1.0) |
| AttributeValue.RecursionExactlyWhenEndless | lib/expat/xmlparse.c:5966-5988 | without another error the value exists if and only if the nesting of references below it is of finite depth; otherwise the recursion is reported |
| DoContent.EventsNest | lib/expat/xmlparse.c:2937-3366 | the events of every run nest inside one root element with matching names, and leave open exactly the tags on the stack |
| DoContent.TextKeepsTags | lib/expat/xmlparse.c:2985-2995 | the text of an entity returns to its starting level and leaves the tags open there untouched (section 4.3.2 of XML 1.0) |
| DoContent.LeadDecides | lib/expat/xmlparse.c:2966-2995 | what an entity text begins with decides whether its inlining yields an event before the level can be wrong |
| DoContent.HastyDiffersOnlyBeforeAsync | lib/expat/xmlparse.c:5738-5755 | checking the level before the text of a last reference is read gives the events of recursive inlining, except for some events before the same kind of failure |
| DoContent.HastyLosesText | lib/expat/xmlparse.c:5738-5755 | the exception is real: with a document, its events by the code and by recursive inlining |
| DoContent.PlainEndingsAreInlined | lib/expat/xmlparse.c:2937-3366 | when no entity text ends in a reference the code does recursive inlining, errors included |
| EarlyCheck.WalkFollows | lib/expat/xmlparse.c:5738-5755 | reading tags and levels alone, without events, says whether the code gets through, stops, or is cut at a reference with something to report |
| EarlyCheck.DiffersExactlyWhenLosing | lib/expat/xmlparse.c:2937-3366 | for every entity table, text and open tags: the code does recursive inlining, errors included, if and only if that walk over the input meets no reference which ends an entity text at the wrong level and has something to report |
| EarlyCheck.WalkShifts | lib/expat/xmlparse.c:2985-2995 | what an entity text does to tags and levels is the same below any open tags |
| EarlyCheck.TableDecides | lib/expat/xmlparse.c:5738-5755 | the code does recursive inlining on every document if and only if no entity text of the table, read inside one element, loses anything |
| DoContent.PiecesCompose | lib/expat/xmlparse.c:1155-1199 | a document cut between tokens gives the same events in pieces as in one |
| ContentMeaning.DocumentTells | lib/expat/xmlparse.c:2937-3366 | a document is what its tokens say, references replaced by text, read one after another from left to right: the same character data (the character of each reference to one, one line feed for each end of a line) and the same other events in the same order, and the same end: the tags open, the end of the root with what is left, or the same error |
| ContentMeaning.TextTells | lib/expat/xmlparse.c:5707-5778 | the same for the text of an entity, at any level, and what follows it |
| ContentMeaning.EnterTells | lib/expat/xmlparse.c:3029-3075 | the same from a reference on |
| ContentMeaning.PlainTells | lib/expat/xmlparse.c:2966-3346 | one token is shown as section 2 of XML 1.0 says, opens or closes an element, or is the error it says |
| ContentMeaning.ReferenceRules | lib/expat/xmlparse.c:3029-3074 | which references stand for text, and the reason why each other one does not (section 4.1 of XML 1.0) |
| ContentParser.Parser.Refer | lib/expat/xmlparse.c:3029-3074 | the branch taken at a reference is the one the definition takes |
| ContentParser.Parser.HandleToken | lib/expat/xmlparse.c:2966-3346 | every token other than a reference has the effect the definition gives it on tags, events and errors, which is what `ContentMeaning.PlainTells` says it means |
| ContentParser.Parser.CheckEnd | lib/expat/xmlparse.c:2985-2995 | the end of a text is accepted exactly at the level where it started |
| ContentParser.Parser.HandleReference | lib/expat/xmlparse.c:3029-3075 | a reference is reported, refused or entered as defined; an entity entered was not open |
| ContentParser.Parser.DoContent | lib/expat/xmlparse.c:2937-3366 | one call scans up to the end, an error, the end of the root or a re-enter request, with tags and events as defined |
| ContentParser.Parser.ReadEntity | lib/expat/xmlparse.c:5721-5755 | reading on in the innermost entity keeps the events still to come, or reports their error, with less work left |
| ContentParser.Parser.InternalEntityProcessor | lib/expat/xmlparse.c:5707-5778 | the same for every turn of the processor; it hands back to the content processor exactly when no entity is open |
| ContentParser.Parser.ContentProcessor | lib/expat/xmlparse.c:2816-2824 | one turn of the content processor keeps the events still to come, and says when the run is over |
| ContentParser.Parser.CallProcessor | lib/expat/xmlparse.c:1179-1199 | the re-enter loop ends and emits exactly the events of recursively inlining entity text (level checked as above), with the same error or the same open tags; what they mean is in `ContentMeaning.DocumentTells` |
| SelfNaming.ReferenceIsShown | lib/expat/xmlparse.c:6258-6276 | without general entities a reference in content comes out as it was written, and the rest is read as if it stood there as text |
| SelfNaming.DocumentIsInlined | lib/expat/xmlparse.c:6258-6276 | then the early check of the level never matters |
| SelfNaming.AttributeReferenceIsShown | lib/expat/xmlparse.c:6258-6276 | the same for a reference in an attribute value |
| SelfNaming.NoValueIsRecursive | lib/expat/xmlparse.c:6258-6276 | then no attribute value is recursive, unless it refers to an entity that content has open |
| Probing.StepIsOdd | lib/expat/xmlparse.c:241-250 | the second hash gives an odd step smaller than the table |
| Probing.OddFactorCancels | lib/expat/xmlparse.c:241-250 | an odd factor cancels modulo a power of two |
| Probing.SlotsDistinct | lib/expat/xmlparse.c:241-250 | a probe sequence visits no slot twice before it has visited all |
| Probing.NextSlot | lib/expat/xmlparse.c:6956-6960 | stepping down with wrap-around is the next slot of the sequence |
| HashTable.ChainFits | lib/expat/xmlparse.c:6955-6960 | a probe chain is never longer than the number of entries |
| HashTable.FreeMeansAbsent | lib/expat/xmlparse.c:6955-6961 | a free slot at the end of a probe chain means that the name is not in the table |
| HashTable.InsertHolds | lib/expat/xmlparse.c:7001-7012 | an entry put in that slot keeps every entry where its lookup finds it |
| HashTable.Table.FreeSlot | lib/expat/xmlparse.c:6987-6993 | the loop that looks for a free slot ends at the first one of the chain |
| HashTable.Table.Find | lib/expat/xmlparse.c:6952-6961 | found if and only if inserted, and then the entry inserted |
| HashTable.Table.Rehash | lib/expat/xmlparse.c:6980-6994 | the doubled table holds exactly the entries of the old one |
| HashTable.Table.Grow | lib/expat/xmlparse.c:6963-7000 | growth keeps the map and gets below half; a failed allocation changes nothing |
| HashTable.Table.Create | lib/expat/xmlparse.c:7007-7012 | the map gets the new entry, or stays as it is when memory is refused |
| HashTable.Table.Begin | lib/expat/xmlparse.c:6937-6950 | the first table |
| HashTable.Table.Lookup | lib/expat/xmlparse.c:6935-7013 | a lookup is a finite-map lookup with optional insertion; it fails exactly when memory is refused or the table cannot grow |
| HashTable.Table.Clear | lib/expat/xmlparse.c:7015-7022 | the map is empty, the table kept |
| StringPool.Pool.TakeFree | lib/expat/xmlparse.c:7175-7184 | a free block for an empty pool |
| StringPool.Pool.MoveToFree | lib/expat/xmlparse.c:7185-7195 | the string under construction moves to a larger free block |
| StringPool.Pool.Enlarge | lib/expat/xmlparse.c:7197-7225 | the first block is reallocated only when nothing is finished in it |
| StringPool.Pool.AddBlock | lib/expat/xmlparse.c:7226-7266 | a new block takes the string under construction |
| StringPool.Pool.Grow | lib/expat/xmlparse.c:7174-7268 | the string under construction is kept, finished strings keep address and contents, the room strictly grows; every block stays on one of two disjoint lists unless it was reallocated, and their number never falls; a failure changes nothing and is for memory or size |
| StringPool.Pool.AppendChar | lib/expat/xmlparse.c:596 | one character more, or nothing changed; no block is lost |
| StringPool.Pool.Finish | lib/expat/xmlparse.c:595 | the string under construction joins the finished ones |
| StringPool.Pool.Discard | lib/expat/xmlparse.c:594 | the string under construction is dropped |
| StringPool.Pool.Chop | lib/expat/xmlparse.c:592 | its last character is dropped |
| StringPool.Pool.Clear | lib/expat/xmlparse.c:7060-7076 | all blocks are on the free list, none lost, none twice |
| StringPool.Pool.Append | lib/expat/xmlparse.c:7093-7102 | the loop ends with the whole text appended, or with memory refused; no block is lost |
| StringPool.Pool.Terminate | lib/expat/xmlparse.c:7146-7148 | the terminator is added and the string finished, or memory is refused; no block is lost |
| StringPool.Pool.StoreString | lib/expat/xmlparse.c:7144-7149 | the finished string is the text and its terminator; no block is lost |
| StringPool.Pool.Apply | lib/expat/xmlparse.c:590-596 | any one operation does to the pool what it does to a string and a list of strings; no block is lost |
| StringPool.Pool.Run | lib/expat/xmlparse.c:590-596 | any run of operations does to the pool what it does to a string and a list of strings, and before a clear no finished string moves or changes; over the whole run each block stays on one of the lists unless it was reallocated, and their number never falls |
| Namespaces.Parser.CheckDeclaration | lib/expat/xmlparse.c:3956-3999 | the declarations refused, and why, by whole-string comparison with the reserved prefixes and URIs |
| Namespaces.LegalDeclarations | lib/expat/xmlparse.c:3956-3999 | which declarations are legal: xml is bound to its own name and nothing else is, xmlns and its name are not declared, only the default namespace is undeclared (sections 2.2 and 3 of Namespaces in XML 1.0), and no separator that a URI may not hold is in the name |
| Namespaces.RefusedDeclarations | lib/expat/xmlparse.c:3956-3999 | why each other declaration is refused |
| Namespaces.UriCharacters | lib/expat/xmlparse.c:3817-3925 | the characters that RFC 3986 allows in a URI (sections 2.1 to 2.3) |
| Namespaces.Parser.TakeRecord | lib/expat/xmlparse.c:4001-4050 | a record from the free list or a new one, large enough; none exactly for memory or size |
| Namespaces.Parser.AddBinding | lib/expat/xmlparse.c:3930-4068 | an accepted declaration becomes the innermost of its prefix and heads the list of the tag; a refused one changes nothing and is refused for its reason |
| Namespaces.Parser.FreeOne | lib/expat/xmlparse.c:3216-3224 | the last declaration is undone and its record is freed |
| Namespaces.Parser.FreeBindings | lib/expat/xmlparse.c:3372-3386 | all declarations of a tag are undone, and every record is kept on one of the lists |
| Namespaces.Parser.AddBindings | lib/expat/xmlparse.c:3538-3553 | the declarations of a tag are added in order up to the first that is refused |
| Namespaces.Parser.StartTag | lib/expat/xmlparse.c:3078-3137 | a start tag opens a list with its declarations, or stops at the first refused |
| Namespaces.Parser.EndTag | lib/expat/xmlparse.c:3176-3224 | an end tag undoes exactly the declarations of its start tag |
| Namespaces.Parser.EmptyTag | lib/expat/xmlparse.c:3140-3167 | an empty element leaves all declarations as they were, also when one is refused |
| Namespaces.Parser.BindingIsInnermost | lib/expat/xmlparse.c:4053-4063 | at every point a prefix is bound to its innermost declaration in scope, and to nothing when there is none or the default namespace is undeclared (section 6 of Namespaces in XML 1.0) |
| Namespaces.InScope | lib/expat/xmlparse.c:4053-4063 | the innermost declaration is the last one of the prefix; an empty URI takes the default namespace back (sections 6.1 and 6.2 of Namespaces in XML 1.0) |
| Namespaces.Parser.Run | lib/expat/xmlparse.c:3372-3386 | after any balanced run of start, end and empty tags every prefix has its old binding and no record is lost; it stops early only at a declaration that is refused |
| ContextString.RoundTripsExactly | lib/expat/xmlparse.c:6502-6629 | parsing a printed list of items gives the list back if and only if names are free of form feed and `=`, URIs of form feed, and the last item is not an empty name |
| ContextString.ItemsAreClean | lib/expat/xmlparse.c:6583-6629 | whatever is parsed is a list of such items |
| Context.Parser.PrintPrefixes | lib/expat/xmlparse.c:6507-6565 | all bindings in scope are printed, the default namespace first |
| Context.Parser.PrintEntities | lib/expat/xmlparse.c:6567-6577 | then the names of all open entities |
| Context.Parser.GetContext | lib/expat/xmlparse.c:6502-6581 | the context is the print of the bindings and open entities; it fails only when memory is refused |
| Context.Parser.LookupPrefix | lib/expat/xmlparse.c:6601-6613 | the prefix of that name, created unbound if it is new |
| Context.Parser.Bind | lib/expat/xmlparse.c:6614-6622 | the bindings are those of the items so far, this one included |
| Context.Parser.Open | lib/expat/xmlparse.c:6592-6599 | the entity of that name, if there is one, is open |
| Context.Parser.SetContext | lib/expat/xmlparse.c:6583-6629 | the bindings and open entities are exactly those of the items of the context; it stops only for memory or at an item that is refused |
| Context.Parser.MirroredBindings | lib/expat/xmlparse.c:6601-6622 | after a whole context a name is bound to a URI exactly when its last item for that name binds it |
| Context.PrintedBindings | lib/expat/xmlparse.c:6507-6565 | the items printed bind a name to a URI exactly when the parser does |
| Context.HandOver | lib/expat/xmlparse.c:6502-6629 | a fresh parser that takes over the context of another has the same map from names to URIs, with a prefix for every name bound, and the same entities open |
| NsAtts.Parser.NextPower | lib/expat/xmlparse.c:3607-3608 | the new table has more than twice as many slots as attributes, at least eight, and no more than is needed for that |
| NsAtts.Parser.InitVersions | lib/expat/xmlparse.c:3641-3644 | every slot has the initial version |
| NsAtts.Parser.BeginTag | lib/expat/xmlparse.c:3592-3645 | every slot is free for the new tag, also when the version wraps around; a failure changes nothing |
| NsAtts.MetMatch | lib/expat/xmlparse.c:3703-3713 | a slot that matches was filled for an earlier attribute that matches |
| NsAtts.MetNone | lib/expat/xmlparse.c:3700-3718 | a free slot at the end of the chain means that no earlier attribute matches |
| NsAtts.FillHolds | lib/expat/xmlparse.c:3732-3735 | filling it keeps every earlier attribute where its lookup finds it |
| NsAtts.Parser.FindName | lib/expat/xmlparse.c:3699-3717 | the probe loop ends, and reports a duplicate exactly when an earlier attribute matches |
| NsAtts.Parser.EnterName | lib/expat/xmlparse.c:3699-3736 | an attribute is entered exactly when no earlier one matches |
| NsAtts.Parser.ExpandNames | lib/expat/xmlparse.c:3648-3735 | the first attribute that is unbound or matched is reported; otherwise every name is expanded |
| NsAtts.StopsRightly | lib/expat/xmlparse.c:3703-3713 | no duplicate (an earlier attribute with the same namespace name and the same local part, section 6.3 of Namespaces in XML 1.0) is missed; the tag is refused at the right attribute if and only if none before that place runs together with an earlier one (different parts, the same string) or collides with one (different strings, the same hash, one a beginning of the other) |
| NsAtts.FalseAlarmKinds | lib/expat/xmlparse.c:3703-3713 | an attribute is wrongly taken for a duplicate exactly in these two ways |
| NsAtts.SeparatorSplits | lib/expat/expat.h:233-245 | a separator that no local part holds keeps names from running together |
| NsAtts.StoredParts | lib/expat/expat.h:226-252 | a separator that no part holds lets the application split a stored name into namespace name, local part and, with triplets, prefix |
| NsAtts.SeparatedStopsRightly | lib/expat/xmlparse.c:3703-3713 | with such a separator the tag is refused at the right attribute if and only if no names before that place collide |
| NsAtts.FalseAlarmExists | lib/expat/xmlparse.c:3682-3713 | without a separator a legal tag is refused whatever the hash: its two names are different pairs and the same string |
| NsAtts.CollisionExists | lib/expat/xmlparse.c:3703-3713 | a collision of the hash has the same effect in spite of a separator |
| ParseBuffer.CutFront | lib/expat/xmlparse.c:2287-2306 | cutting off context older than is kept leaves a buffer front a front |
| ParseBuffer.Parser.Slide | lib/expat/xmlparse.c:2299-2306 | the unparsed text and the kept context move to the front |
| ParseBuffer.Parser.MoveTo | lib/expat/xmlparse.c:2331-2347 | the same into a larger block |
| ParseBuffer.Parser.HoldsContext | lib/expat/xmlparse.c:2287-2306 | the buffer holds all that is unparsed, and in front of it up to 1024 bytes of the text already parsed |
| ParseBuffer.Parser.CountNeeded | lib/expat/xmlparse.c:2281-2295 | the size needed, or the overflow of an int |
| ParseBuffer.Parser.Double | lib/expat/xmlparse.c:2314-2319 | the doubling loop ends; it succeeds exactly up to 2^30 bytes, with a size that suffices and is not twice what is needed |
| ParseBuffer.Parser.MakeRoom | lib/expat/xmlparse.c:2276-2365 | when it succeeds, when it takes a new block, and what it keeps |
| ParseBuffer.Parser.GetBuffer | lib/expat/xmlparse.c:2257-2367 | a request succeeds exactly when the room is there after sliding, or the size fits and memory is granted; then len bytes are free, the unparsed text is unchanged and up to 1024 bytes of context are kept |
| ParseBuffer.Parser.Reasons | lib/expat/xmlparse.c:2190-2221 | the error of every refusal, state by state |
| ParseBuffer.Parser.CallProcessor | lib/expat/xmlparse.c:1155-1210 | an attempt put off consumes nothing and leaves room for another request as large as the last, so that deferring never causes a reallocation |
| ParseBuffer.Parser.SetReparseDeferralEnabled | lib/expat/xmlparse.c:2763-2769 | once deferral is off every attempt is made |
| ParseBuffer.Parser.FailedProgress | lib/expat/xmlparse.c:1171-1174 | the status of a failed parser |
| ParseBuffer.Parser.Conclude | lib/expat/xmlparse.c:2233-2250 | what an attempt comes to: status, next state, and whether the parser has failed |
| ParseBuffer.Parser.Process | lib/expat/xmlparse.c:2220-2254 | text handed over is appended to the text received; how far parsing gets, with which status, error and count of a partial token |
| ParseBuffer.Parser.ParseBuffer | lib/expat/xmlparse.c:2190-2255 | the same behind the checks of state and length; a failed parser returns an error if and only if the attempt is made and its error is still set, and otherwise accepts; a refusal changes nothing |
| ParseBuffer.Parser.Hand | lib/expat/xmlparse.c:2190-2255 | text written into the room asked for and handed over is appended to the text received, or nothing is |
| ParseBuffer.Parser.Deliver | lib/expat/xmlparse.c:2180-2187 | the same once the state has been checked |
| ParseBuffer.Parser.Parse | lib/expat/xmlparse.c:2084-2188 | with room, and in a state that takes text, one call receives the whole text, makes the attempt exactly as stated in terms of the final flag and the text held, and fixes position, status, error and next state; otherwise, exactly, nothing is received, with the reason as error |
| ParseBuffer.ForgottenError | lib/expat/xmlparse.c:1171-1174 | a run that gets there: an attempt put off clears the error of a failed parser, which then accepts text it would have refused |
| ParseBuffer.Handle | lib/expat/xmlparse.c:2084-2255 | one call of an application, with all that it promises |
| ParseBuffer.Run | lib/expat/xmlparse.c:612-625 | over any run of requests, hand-overs, one-shot calls and changes of the deferral setting buffer <= ptr <= end <= lim, the buffer holds the end of the text received with all that is unparsed and its context, and parsing never goes back |
| SipHash.State.SipRound | lib/expat/siphash.h:161-183 | the in-place rounds are the SipRound of the paper, iterated |
| SipHash.State.FillBuffer | lib/expat/siphash.h:204 | bytes go to the buffer until it is full or the text ends |
| SipHash.State.Update | lib/expat/siphash.h:199-218 | the message absorbed grows by the bytes given, wherever they are cut |
| SipHash.LastWordIsPadded | lib/expat/siphash.h:221-248 | the fall-through switch builds the padded last word with the low byte of the length |
| SipHash.State.Final | lib/expat/siphash.h:220-257 | the digest of the message absorbed |
| SipHash.HashPieces | lib/expat/siphash.h:185-257 | any number of updates gives the digest of the whole (section 2 of the SipHash paper) |
| SipHash.SipHash24 | lib/expat/siphash.h:259-262 | the one-shot form |
| SipHashVectors.EmptyDigest | lib/expat/siphash.h:275-360 | the digest of the empty message is the first known answer |
| SipHashVectors.OneWordDigest | lib/expat/siphash.h:275-360 | the same for the message of eight bytes |
| SipHashVectors.FifteenBytesDigest | lib/expat/siphash.h:275-360 | the same for the message of fifteen bytes |
| DrawLine.NextStep | lib/GfxRenderer/GfxRenderer.cpp:144-152 | the two tests advance the major axis at every step and keep the point within half a pixel |
| DrawLine.ErrorFits | lib/GfxRenderer/GfxRenderer.cpp:136-152 | the error term stays within one and a half times the longer side |
| DrawLine.GfxRenderer.DrawDiagonal | lib/GfxRenderer/GfxRenderer.cpp:129-154 | the loop ends after max(|dx|,|dy|) steps at the end point, each step to a neighbour, every pixel within half a pixel of the ideal line |
| DrawLine.GfxRenderer.DrawLine | lib/GfxRenderer/GfxRenderer.cpp:114-155 | the same for all lines; axis-parallel ones run from the smaller coordinate to the larger |
| ZipFile.RotationScans | lib/ZipFile/ZipFile.cpp:122-183 | with unique names a scan that starts anywhere and wraps once finds what a plain scan finds |
| ZipFile.ZipFile.LoadAll | lib/ZipFile/ZipFile.cpp:44-98 | the map answers every name as a scan of the directory does |
| ZipFile.ZipFile.ScanFromCursor | lib/ZipFile/ZipFile.cpp:122-183 | the scan from the cursor, its result, its visits (each entry at most once) and the boundary at which it leaves the cursor |
| ZipFile.ZipFile.LoadFileStat | lib/ZipFile/ZipFile.cpp:100-189 | by map or by cursor, the stat that a plain scan finds |
| ZipFile.ZipFile.Close | lib/ZipFile/ZipFile.cpp:299-306 | closing forgets the cursor |
| ZipArchive.HeaderIsRead | lib/ZipFile/ZipFile.cpp:100-189 | a file header written as section 4.3.12 of APPNOTE.TXT lays it out, field by field, is read as the name and the stat written |
| ZipArchive.DirectoryIsRead | lib/ZipFile/ZipFile.cpp:100-189 | a directory so written, with something else behind it, is read as exactly the files written |
| ZipFile.LowerBound | lib/ZipFile/ZipFile.cpp:364-369 | the first target that is not less |
| ZipFile.FillTargets | lib/ZipFile/ZipFile.cpp:371-377 | all targets of that hash and length get the size, and are counted |
| ZipFile.ZipFile.FillEntry | lib/ZipFile/ZipFile.cpp:340-385 | one entry: its name is read or skipped, its targets get its size |
| ZipFile.ZipFile.FillUncompressedSizes | lib/ZipFile/ZipFile.cpp:318-390 | one pass over the directory fills the sizes entry by entry |
| ZipFile.BatchIsScan | lib/ZipFile/ZipFile.cpp:318-390 | without collisions each target gets the size that a scan for its name finds |
| ZipFile.BatchLeavesOthers | lib/ZipFile/ZipFile.cpp:371-377 | a size that no target stands for is left as it is |
| ZipFile.MatchedIsFound | lib/ZipFile/ZipFile.cpp:318-390 | without collisions the number returned is that of the names the directory has |
| ZipArchive.LookUp | lib/ZipFile/ZipFile.cpp:44-390 | each of the three lookups finds for a file what was written for it: compression, both sizes and the offset |
| Downscale.ColumnsPartition | lib/JpegToBmpConverter/JpegToBmpConverter.cpp:449-470 | when the image gets narrower its column ranges are non-empty, adjacent and in bounds, with at most the last column unused |
| Downscale.ColumnsInBounds | lib/JpegToBmpConverter/JpegToBmpConverter.cpp:449-470 | for every output width each range used is non-empty and in bounds |
| Downscale.RowsPartition | lib/JpegToBmpConverter/JpegToBmpConverter.cpp:474-528 | row ranges are adjacent and cover the source exactly |
| Downscale.EmitsAtBoundary | lib/JpegToBmpConverter/JpegToBmpConverter.cpp:474-477 | a row is emitted exactly at the last source row of its range |
| Downscale.ProductsFit | lib/JpegToBmpConverter/JpegToBmpConverter.cpp:259-263 | all fixed-point products fit in 32 bits, for columns and rows and for every output size |
| Downscale.GrayIsFloorOfMean | lib/JpegToBmpConverter/JpegToBmpConverter.cpp:500 | with fewer than 65536 pixels in a block the gray value is the floor of their mean |
| Downscale.SumColumns | lib/JpegToBmpConverter/JpegToBmpConverter.cpp:451-466 | sum and count of one column range |
| Downscale.AccumulateRow | lib/JpegToBmpConverter/JpegToBmpConverter.cpp:449-470 | one source row added to the accumulators |
| Downscale.EmitRow | lib/JpegToBmpConverter/JpegToBmpConverter.cpp:480-524 | one output row, and the accumulators cleared |
| Downscale.Scale | lib/JpegToBmpConverter/JpegToBmpConverter.cpp:443-529 | every output pixel is the gray value of its block; as many rows come out as asked for exactly when the image does not get taller, else as many as the source has |
| Downscale.RowsAreMissing | lib/JpegToBmpConverter/JpegToBmpConverter.cpp:238-283 | the header promises more rows than are written if and only if an image larger than the target is cropped and gets taller: the target is higher than the image, or as wide as the target the image gets higher than it was |
| Downscale.PromisedRowsMissing | lib/JpegToBmpConverter/JpegToBmpConverter.cpp:238-283 | an image to which this happens |
| Dithering.SpreadBounded | lib/GfxRenderer/BitmapHelpers.h:56-65 | spreading the error of a new pixel keeps the bounds of all cells |
| Dithering.CellBounds | lib/GfxRenderer/BitmapHelpers.h:36-76 | every cell stays within -96..90 (one bit) or -54..42 (two bits) |
| Dithering.LevelRises | lib/GfxRenderer/BitmapHelpers.h:116-154 | the level rises with the gray value from 0 for black to the top level for white |
| Dithering.Atkinson.ProcessPixel | lib/GfxRenderer/BitmapHelpers.h:116-167 | quantisation, error spread and bounds, for all rows in which no pixel is processed twice |
| Dithering.Atkinson.NextRow | lib/GfxRenderer/BitmapHelpers.h:169-175 | the rows move up and the last is cleared |
| Dithering.SharesAddUp | lib/GfxRenderer/BitmapHelpers.h:262-283 | the four shares add up to between the error less three and the error |
| Dithering.FsCellBounds | lib/GfxRenderer/BitmapHelpers.h:218-286 | every cell stays within -72..57 |
| Dithering.FsSpreadBounded | lib/GfxRenderer/BitmapHelpers.h:262-283 | spreading in either direction keeps the bounds |
| Dithering.FsPattern | lib/GfxRenderer/BitmapHelpers.h:261-283 | seven sixteenths of the error go to the next pixel, three, five and one to the pixels below, behind, straight and ahead, mirrored on rows scanned backwards; no accumulator overflows |
| Dithering.FloydSteinberg.ProcessPixel | lib/GfxRenderer/BitmapHelpers.h:218-286 | quantisation, directed error spread and bounds |
| Dithering.FloydSteinberg.NextRow | lib/GfxRenderer/BitmapHelpers.h:289-297 | the rows swap, the next is cleared, the direction changes; the first row goes to the right |
| Bmp.WordRoundTrip | lib/JpegToBmpConverter/JpegToBmpConverter.cpp:34-51 | the bytes of a word, read back, are the word |
| Bmp.SlotWritten | lib/JpegToBmpConverter/JpegToBmpConverter.cpp:438-440 | writing a two-bit pixel changes no other pixel of its byte |
| Bmp.BitWritten | lib/JpegToBmpConverter/JpegToBmpConverter.cpp:412-414 | the same for one bit |
| BmpMeaning.TopBitsFirst | lib/JpegToBmpConverter/JpegToBmpConverter.cpp:395-437 | the pixels of a byte stand in it from the top bits down |
| Bmp.PackRow2 | lib/JpegToBmpConverter/JpegToBmpConverter.cpp:428-440 | the row holds the pixels in order, blank behind them |
| Bmp.PackRow1 | lib/JpegToBmpConverter/JpegToBmpConverter.cpp:405-415 | the same for one bit |
| Bmp.WriteBmpHeader1bit | lib/JpegToBmpConverter/JpegToBmpConverter.cpp:91-128 | the 62 bytes of the header |
| Bmp.WriteBmpHeader2bit | lib/JpegToBmpConverter/JpegToBmpConverter.cpp:130-167 | the 70 bytes of the header |
| Bmp.WriteImage | lib/JpegToBmpConverter/JpegToBmpConverter.cpp:265-441 | a header for the given height, the packed rows, one after another, and nothing else |
| BmpMeaning.FileStatesItsLength | lib/JpegToBmpConverter/JpegToBmpConverter.cpp:91-167 | a file with all of its rows states its own length and that of its pixels |
| Bmp.HeaderRoundTrip | lib/GfxRenderer/Bitmap.cpp:83-135 | for all 32-bit sizes the reader takes a written header exactly when the picture is at most 2048 by 3072 and not empty, and reads back width, height and direction |
| Bmp.GrayIsItsOwnLuma | lib/GfxRenderer/Bitmap.cpp:131-135 | the luminance of a gray palette entry is the entry |
| BmpMeaning.PureColors | lib/GfxRenderer/Bitmap.cpp:170-218 | blue, green and red in this order: what the pure colours are shown as, and black and white |
| BmpMeaning.PixelsFollow | lib/GfxRenderer/Bitmap.cpp:184-221 | the pixels of 8, 24 and 32 bits follow one another from the left |
| BmpMeaning.BrighterIsNotDarker | lib/GfxRenderer/Bitmap.cpp:170-238 | the luminance rises with every channel, and the level shown with the luminance, at every depth |
| Bmp.Bitmap.ReadPalette | lib/GfxRenderer/Bitmap.cpp:128-136 | the palette is the identity overwritten by the colours of the file |
| Bmp.Bitmap.ParseHeaders | lib/GfxRenderer/Bitmap.cpp:83-154 | for every file, also a truncated one, the error is the first fault of the header; without one the fields are those of the file and the cursor is at the pixels |
| BmpMeaning.AcceptedHeaders | lib/GfxRenderer/Bitmap.cpp:83-154 | what the reader takes, at the places of the file format |
| BmpMeaning.ReportedFaults | lib/GfxRenderer/Bitmap.cpp:83-154 | the fault that is reported is there |
| Bmp.PackPixel | lib/GfxRenderer/Bitmap.cpp:170-197 | four pixels a byte, the byte being filled completed at the right moment |
| Bmp.Flushed | lib/GfxRenderer/Bitmap.cpp:242-243 | the last byte completes the row |
| Bmp.Bitmap.ReadNextRow | lib/GfxRenderer/Bitmap.cpp:157-246 | the output row holds the colours of the next row of the file for every depth; a short row is refused |
| Bmp.RowRoundTrip | lib/GfxRenderer/Bitmap.cpp:222-238 | a written row shows the values written: two-bit values as they are, black and white as 0 and 3 |
| Bmp.ReadImage | lib/GfxRenderer/GfxRenderer.cpp:230-272 | row after row the picture comes back; if the header promises more rows the next one is short |
| Bmp.WriteThenRead | lib/JpegToBmpConverter/JpegToBmpConverter.cpp:91-167 | for every width, height and rows: the file is accepted exactly within the limits; then every pixel written comes back, and reading fails with a short row exactly when there are fewer rows than the height |

## Left out

- The tokenizer, encodings, unknown encodings and the prolog outside element declarations: tokens are given.
- External entities, parameter entities, foreign DTDs, suspending and resuming from handlers, default, comment and
  namespace handlers: they add branches without a new kind of property.
- Amplification limits, debug output, entropy and the salt: floating point and I/O.
- Memory failure inside entity expansion, and text that a pool has no room for there (`AttributeValue`, `DoContent`):
  the string pool has its own model.
- Attributes of content start tags in `ContentParser`, and CDATA sections cut by the end of the input: the namespace
  side of start tags is in `Namespaces` and `NsAtts`.
- Buffers that the code reallocates in place (`Heap`, the blocks of `StringPool`, the table of `NsAtts`) are sequences
  in fields: an alias into the old block is not modelled, except that the string pool names the block of every string.
- The list of free tags and the raw names of tags.
- ContentParser.Parser.HandleToken: the attributes and the namespace work of start and empty tags are not part of its
  effect on tags and events; they are in `Namespaces` and `NsAtts`.
- ContentParser.Parser.CallProcessor: does not model attributes, handlers or the deferral heuristic, which is in
  ParseBuffer.
- Context.HandOver: does not model a child that already has bindings or open entities, because a context is given only
  to a fresh parser.
- Context.Parser.SetContext: a refusal between the creation of a prefix and the copy of its name counts as one refusal
  of the prefix, so the half-made entry is not modelled.
- NsAtts.Parser.ExpandNames: does not model the attribute list beyond the prefixed attributes, nor failures of the pool.
- ParseBuffer.Parser.ParseBuffer: does not model line and column positions or the byte index; how much the processor
  consumes is given.
- DrawLine.GfxRenderer.DrawLine: does not model 32-bit overflow of coordinates or the bits of the frame buffer;
  DrawLine.ErrorFits bounds the one derived quantity.
- ZipFile.ZipFile.LoadFileStat: does not model a malformed directory, the search for the end record, or names with NUL.
- ZipFile.ZipFile.LoadAll: does not model names of 256 bytes and more, for which the code's buffer of that size has no
  defined contents (`lib/ZipFile/ZipFile.cpp:60`, `lib/ZipFile/ZipFile.cpp:81-82`); the other two scans skip them.
- Downscale.Scale: does not model the MCU order of the decoder and dithering of the result.
- Downscale.RowsAreMissing: does not model the rounding of the floating-point scale, with which an output size can
  differ by one.
- Dithering.Atkinson.ProcessPixel: the one-bit and the two-bit class are one class with a table of levels; brightness
  adjustment is switched off in the code and is the identity here.
- Bmp.Bitmap.ReadNextRow: does not model a reader created with dithering; the loops over the depths are one loop that
  branches inside.
- Bmp.WriteImage: does not model the 8-bit output that is switched off in the code.
- Fonts, activities, networking, settings, build scripts and the small text helpers: I/O, user interface or easy members.
