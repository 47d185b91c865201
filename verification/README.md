# juritools entity correction, modelled in Dafny

juritools pseudonymises French court decisions. A named-entity tagger
proposes entities (a text, a start offset in the decision, a category
such as `personnePhysique` or `localite`, and a source: the NER model or
the post-processing). The post-processing engine then corrects that list:
it relabels entities, splits multi-name entities, trims years and quotes,
adds entities found by keyword lists, regular expressions or the
decision's metadata, and reports checks (similar spellings, categories in
conflict, missing bank accounts or land-registry parcels). Every added
entity passes an overlap guard against the offsets already recorded. The
anonymiser finally replaces chosen entities by pseudonyms, right to left.

This project models that core:

| module (file) | what it models |
|---|---|
| `Base` (strings.dfy) | Python slicing, `lower`/`upper`, `strip`, `split`, `replace` on `seq<char>` |
| `Types` (types.dfy) | `juritools/type.py`: categories, sources, entities, merging, checks and their messages, the post-processing output |
| `Accents` (deaccent.dfy) | `juritools/utils/deaccent.py` |
| `Azertypo` (azertypo.dfy) | `juritools/utils/azertypo.py`: AZERTY neighbours, weighted Levenshtein distance, similarity |
| `Ordering` (sorting.dfy) | Python's stable `sorted` by start offset |
| `Guard` (guard.dfy) | the engine state and `check_overlap_entities` of `juritools/postprocessing/postprocess.py` |
| `CamelCase` (camelcase.dfy) | `map_category_to_camelcase` of the same file |
| `Edits` (edits.dfy) | the relabel and explode (delete and re-add) pattern the rules share |
| `Matching` (matching.dfy) | what the external matchers report, and the guarded insertion of their candidates |
| `FromEntities` (from_entities.dfy) | `juritools/postprocessing/postprocess_from_entities.py` |
| `FromText` (from_text.dfy) | `juritools/postprocessing/postprocess_from_text.py` |
| `FromSents` (from_sents.dfy) | `juritools/postprocessing/postprocess_from_sents.py` |
| `Anonymizer` (anonymizer.dfy) | the offset-based replacement of `juritools/postprocessing/anonymizer.py` |
| `Preprocess` (preprocess.dfy) | `juritools/preprocess.py`: decision text, sentences and metadata |
| `JuriLoss` (juriloss.dfy) | the tag extraction of `juritools/juriloss.py` |

The tagger, tokenizer, keyword gazetteers and regular-expression engines
are not modelled: what they report is a parameter, together with a
predicate saying that each report is honest (a match is the text at its
span). Entities are immutable values; each rule maps an engine state to a
new one.

Where the documentation of the system and its code disagree, the model
follows the code:

- The documentation describes an entity registry kept ordered by binary
  insertion with one bucket per category. The code
  (`juritools/postprocessing/postprocess.py:15-19`, `112-132`) appends to
  one list, records every start and end in two boundary lists, and sorts
  only on demand (`ordered_entities`). The model does the same.
- `type.py` computes `end` as `start + len(text)` (lines 57-60). The rules
  still pass `end=` when they build entities, decrement `entity.end`
  (`postprocess_from_entities.py:304`, `postprocess_from_text.py:533`) and
  call `.lower()` on labels, as if `end` were a stored field and labels
  were strings. The model has only the computed end and compares
  categories directly. A rule that moves a start and then re-reads
  `text[start:end]` with the old end (`manage_quote`) is modelled as
  keeping that end.
- `_ordered_entities` (`juritools/postprocessing/anonymizer.py:116-124`)
  sorts with `key=itemgetter("start")`, which subscripts each entity.
  `NamedEntity` is a pydantic model (`type.py:38`) and cannot be
  subscripted, so as written the sort, and with it
  `replace_entities_from_indexes`, raises for any non-empty entity list.
  Like the other two points, this reads as code written for entities that
  were dictionaries. The model sorts by the `start` field, which is what
  the key names, and `Anonymizer.OrderedEntities` and
  `Anonymizer.ReplaceRendersChosen` state that intended behaviour.

Integer widths play no role: offsets and counts are unbounded integers.
Scores and other floating-point values are left out; the AZERTY distance is
counted in half units, so it stays an integer.

## Model

| member | source | states |
|---|---|---|
| Types.ParseSource | juritools/type.py:10-12 | a source name parses exactly when it is one of the two enum values, and parses to the source with that value |
| Types.FindListedCategory | juritools/type.py:15-35 | looking a category's value up in a list holding that category finds it |
| Types.ParseCategoryValue | juritools/type.py:15-35 | every category's value parses back to that category |
| Types.ParseCategorySound | juritools/type.py:15-35 | a name parses to a category only if it is that category's value, or the alias `insee` of `numeroIdentifiant` |
| Types.CategoryValueInjective | juritools/type.py:15-35 | distinct categories have distinct values |
| Types.NoUnderscoreInValue | juritools/type.py:15-35 | no category value contains `_`, so the label part of an `entityId` ends at its first underscore |
| Types.MakeEntity | juritools/type.py:38-60 | construction fails exactly on an empty text, an unknown label or an unknown source; a built entity keeps text and start and ends at start + length of text |
| Types.EntityIdInjective | juritools/type.py:52-55 | equal `entityId`s imply equal categories and equal lower-cased, accent-folded texts |
| Types.EntityIdNormalises | juritools/type.py:52-55 | same category and same lower-cased, accent-folded text imply the same `entityId` |
| Types.LtGtNotConverse | juritools/type.py:62-66 | `<` compares starts and `>` compares ends, so an entity can be both less than and greater than another |
| Types.OverlapsSymmetric | juritools/type.py:68-73 | overlap is symmetric |
| Types.OverlapsIffSharedOffset | juritools/type.py:68-73 | two non-empty entities overlap exactly when some offset lies in both; touching entities do not overlap |
| Types.Merge | juritools/type.py:251-288 | the three errors occur exactly for different categories, different sources, and disjoint spans; a merge keeps category and source and spans from the smaller start to the larger end; an enclosing entity is returned as it is |
| Types.MergeInDocument | juritools/type.py:251-288 | merging two entities read from the decision gives an entity read from the decision |
| Types.MergeCommutative | juritools/type.py:251-288 | for entities read from the decision, merging is commutative, errors included |
| Types.Distinct | juritools/type.py:137 | the category list of the message holds each value of the input once and nothing else |
| Types.GetMessage | juritools/type.py:129-150 | the message fails exactly when a similar-writing check does not hold two entities, or a categories or too-short check holds none; it is empty exactly for the placeholder type |
| Types.SimilarMessageMentions | juritools/type.py:131-134 | the similar-writing message contains both texts |
| Types.CategoriesMessageMentions | juritools/type.py:135-138 | the different-categories message contains the first entity's text and the category of every entity |
| Types.ShortMessageMentions | juritools/type.py:139-141 | the too-short message contains the printed form of the first entity |
| Types.MetadataMessageMentions | juritools/type.py:144-146 | the intended incorrect-metadata message contains every term |
| Types.GetMessageAsWritten | juritools/type.py:144-146 | as written, the message only differs from the intended one for the incorrect-metadata type |
| Types.IncorrectMetadataDropsTerms | juritools/type.py:144-146 | as written, the incorrect-metadata message is the same with or without terms, unlike the intended one |
| Types.EquivalentIsEquivalence | juritools/type.py:231-239 | output equality (the six lists compared as sets) is reflexive, symmetric and transitive |
| Types.MergeOutput | juritools/type.py:241-248 | each of the six result lists is the first output's list followed by the second's |
| Types.MergeOutputCommutes | juritools/type.py:231-248 | merging outputs in either order gives equal outputs |
| Types.MergeOutputCongruent | juritools/type.py:231-248 | merging equal outputs with a third gives equal outputs |
| Types.MergeOutputIdempotent | juritools/type.py:231-248 | an output merged with itself equals itself |
| Types.MergeOutputUnit | juritools/type.py:162-248 | merging with the empty output, on either side, changes nothing |
| Types.MergeOutputAssociates | juritools/type.py:241-248 | merging is associative |
| Ordering.SortPermutes | juritools/postprocessing/postprocess.py:56-58 | sorting by start rearranges the entities: same multiset |
| Ordering.SortSorts | juritools/postprocessing/postprocess.py:56-58 | the result is ordered by start, ascending or, with `reverse`, descending |
| Ordering.SortStable | juritools/postprocessing/postprocess.py:56-58 | entities with equal starts keep their original relative order, in both directions, as Python's stable `sorted` does |
| Ordering.SortKeepsSorted | juritools/postprocessing/postprocess.py:56-58 | a list already in order is returned unchanged |
| Ordering.SortedByStarts | juritools/postprocessing/postprocess.py:56-58 | in a sorted list every earlier entity starts no later (no earlier, with `reverse`) than every later one |
| Ordering.InsertPermutes | juritools/postprocessing/postprocess.py:56-58 | one insertion step adds exactly the inserted entity |
| Ordering.InsertSorted | juritools/postprocessing/postprocess.py:56-58 | one insertion step keeps a sorted list sorted |
| Ordering.InsertStable | juritools/postprocessing/postprocess.py:56-58 | one insertion step puts the new entity after every entity with the same start |
| Guard.Boundaries | juritools/postprocessing/postprocess.py:16-17 | the boundary list holds, position by position, the start and end of each entity |
| Guard.Init | juritools/postprocessing/postprocess.py:15-19 | the engine starts with the given entities and checklist and records the span of each entity |
| Guard.CheckOverlap | juritools/postprocessing/postprocess.py:112-132 | an accepted span is recorded at the end of the boundary list, a refused one records nothing, and a span whose start or end is already recorded is always refused |
| Guard.CheckOverlapIffClear | juritools/postprocessing/postprocess.py:120-127 | for a non-empty span over recorded non-empty spans, acceptance holds exactly when the span ends before each recorded start or starts at or after its end |
| Guard.AcceptedIsDisjoint | juritools/postprocessing/postprocess.py:120-127 | an accepted span shares no offset with any recorded span |
| Guard.AdjacencyAsymmetric | juritools/postprocessing/postprocess.py:123-125 | a span ending where a recorded one starts is refused, while a span starting where a recorded one ends is accepted |
| Guard.TryInsert | juritools/postprocessing/postprocess.py:128-130 | the guarded append adds the entity and its span exactly when the guard accepts it and leaves the state unchanged otherwise; the checklist never changes |
| Guard.TryInsertExtends | juritools/postprocessing/postprocess.py:128-130 | a guarded append only appends: the previous entities and spans stay a prefix |
| Guard.ExtendsTransitive | juritools/postprocessing/postprocess.py:128-130 | appending in several steps still only appends |
| Guard.InsertAllExtends | juritools/postprocessing/postprocess.py:112-132 | offering several entities only appends, and everything appended was offered |
| Guard.OrderedEntities | juritools/postprocessing/postprocess.py:50-58 | the ordered view is a permutation of the entities, sorted by start, stable on equal starts |
| CamelCase.FindKey | juritools/postprocessing/postprocess.py:65-85 | a found key has the looked-up name and is in the searched list |
| CamelCase.KeyNameInjective | juritools/postprocessing/postprocess.py:65-85 | the table's keys are pairwise distinct |
| CamelCase.FindListedKey | juritools/postprocessing/postprocess.py:65-85 | looking up a key's name finds that key |
| CamelCase.KeyNameLowerCase | juritools/postprocessing/postprocess.py:65-85 | every key of the table is lower case |
| CamelCase.UpperIsNoKey | juritools/postprocessing/postprocess.py:88 | a label with an upper-case letter is never a key |
| CamelCase.ValueShape | juritools/postprocessing/postprocess.py:65-85 | every value either equals its key or contains an upper-case letter |
| CamelCase.MapToCamelCase | juritools/postprocessing/postprocess.py:87-90 | each entity keeps its text, start and source; a label that is a key becomes the table's value for it and any other label is kept |
| CamelCase.RenameKey | juritools/postprocessing/postprocess.py:88-89 | a key's name is renamed to the table's value for that key |
| CamelCase.RenameSettles | juritools/postprocessing/postprocess.py:87-90 | renaming a renamed label changes nothing more |
| CamelCase.MapToCamelCaseIdempotent | juritools/postprocessing/postprocess.py:87-90 | mapping twice gives the same list as mapping once |
| CamelCase.LawyerLabelParses | juritools/postprocessing/postprocess.py:73 | with the intended value `professionnelAvocat`, the lawyer label maps to a category value that parses |
| CamelCase.LawyerLabelMisspelt | juritools/postprocessing/postprocess.py:73 | as written, the lawyer label maps to `professionelAvocat`, which is no category |
| CamelCase.MisspeltIsNoCategory | juritools/type.py:15-35 | `professionelAvocat` is not the value of any category |
| Accents.Deaccent | juritools/utils/deaccent.py:41-43 | folding keeps the length of the text, so offsets carry over between a text and its folded form |
| Accents.SubstituteClass | juritools/utils/deaccent.py:42 | one substitution replaces exactly the characters of the class by the letter and keeps the length |
| Accents.StepsArePointwise | juritools/utils/deaccent.py:41-43 | the successive substitutions act character by character, each character folded by the first table entry that lists it |
| Accents.DeaccentMatchesSource | juritools/utils/deaccent.py:20-43 | the successive substitutions over the table equal the character-wise fold |
| Accents.TableIsWellFormed | juritools/utils/deaccent.py:20-37 | every entry maps non-ASCII letters to an ASCII letter of the same case |
| Accents.UnmappedUnchanged | juritools/utils/deaccent.py:20-43 | a character absent from the table is kept |
| Accents.AsciiFixed | juritools/utils/deaccent.py:20-43 | ASCII characters are kept |
| Accents.AccentedBecomesBaseLetter | juritools/utils/deaccent.py:20-43 | an accented character becomes an ASCII letter, upper case exactly when it was upper case |
| Accents.DeaccentCharIdempotent | juritools/utils/deaccent.py:20-43 | folding a folded character changes nothing |
| Accents.DeaccentIdempotent | juritools/utils/deaccent.py:20-43 | folding a folded text changes nothing |
| Accents.DeaccentSlice | juritools/utils/deaccent.py:20-43 | folding commutes with slicing, so offsets found in the folded text are valid in the original |
| Accents.DeaccentConcat | juritools/utils/deaccent.py:20-43 | folding commutes with concatenation |
| Accents.DeaccentReplaceHyphen | juritools/utils/deaccent.py:20-43 | folding commutes with replacing hyphens by spaces |
| Azertypo.PositionInjective | juritools/utils/azertypo.py:49-76 | no two keys of the unaccented layout share a position |
| Azertypo.NeighboursIffUnitStep | juritools/utils/azertypo.py:79-85 | two keys are typo neighbours exactly when their positions are one step apart |
| Azertypo.NeighboursSymmetricIrreflexive | juritools/utils/azertypo.py:79-85 | the neighbour relation is symmetric and no key neighbours itself |
| Azertypo.OnlyPlainLettersHaveNeighbours | juritools/utils/azertypo.py:79-85 | only lower-case ASCII letters have neighbours |
| Azertypo.AccentedKeysHaveNoNeighbour | juritools/utils/azertypo.py:5-47 | an accented key has a position in the accented layout but no neighbour, since the neighbours come from the unaccented layout |
| Azertypo.DistanceSymmetric | juritools/utils/azertypo.py:88-104 | the weighted distance is symmetric |
| Azertypo.DistanceZeroIffEqual | juritools/utils/azertypo.py:88-104 | the weighted distance is zero exactly for equal strings |
| Azertypo.DistanceBounded | juritools/utils/azertypo.py:88-104 | the weighted distance is at most the longer length (in half units, twice it) |
| Azertypo.WeightedDistance | juritools/utils/azertypo.py:100-104 | the two-row dynamic programme computes the recursive weighted distance |
| Azertypo.NextRow | juritools/utils/azertypo.py:100-104 | one row of the programme holds the distances from the next prefix to every prefix of the other string |
| Azertypo.Similarity | juritools/utils/azertypo.py:107-117 | the similarity is undefined exactly for two empty strings (division by zero); otherwise it is at most 1, and 1 exactly for equal strings |
| Azertypo.SimilaritySymmetric | juritools/utils/azertypo.py:107-117 | the similarity is symmetric |
| Edits.Relabel | juritools/postprocessing/postprocess_from_entities.py:105-110 | relabelling keeps text and span, sets the new category and marks the entity as post-processed |
| Edits.RelabelWhere | juritools/postprocessing/postprocess_from_entities.py:78-84 | a relabelling pass keeps the list's length and order and relabels exactly the entities the rule fires on |
| Edits.RelabelWhereIdempotent | juritools/postprocessing/postprocess_from_entities.py:78-84 | a pass whose rule no longer fires on what it relabelled is idempotent |
| Edits.RelabelWhereInDocument | juritools/postprocessing/postprocess_from_entities.py:105-110 | relabelling keeps every entity read from the decision |
| Edits.KeptAndReplaced | juritools/postprocessing/postprocess_from_entities.py:68-70 | the entities kept and the entities deleted together are exactly the original entities |
| Edits.ReplacedIff | juritools/postprocessing/postprocess_from_entities.py:50-56 | an entity is deleted exactly when it yields pieces, and kept exactly when it yields none |
| Edits.AddedLength | juritools/postprocessing/postprocess_from_entities.py:57-66 | one entity is appended per piece |
| Edits.Explode | juritools/postprocessing/postprocess_from_entities.py:50-70 | after appending the pieces and deleting their originals, the list has as many entities as before, minus the deleted ones, plus the pieces |
| Edits.ExplodeNothing | juritools/postprocessing/postprocess_from_entities.py:50-70 | when no entity yields pieces the list is unchanged |
| Edits.ExplodeInDocument | juritools/postprocessing/postprocess_from_entities.py:50-70 | when every piece is read from the decision, so is every entity after the split |
| Edits.AllInDocumentConcat | juritools/postprocessing/postprocess_from_entities.py:57-66 | appending entities read from the decision keeps all entities read from it |
| Matching.SliceCandidate | juritools/postprocessing/postprocess_from_text.py:55-66 | a keyword match inside the decision becomes a candidate whose text is the decision between its offsets and whose end is that offset |
| Matching.Accepted | juritools/postprocessing/postprocess.py:112-132 | the candidates the guard accepts, in turn, are some of the offered ones |
| Matching.TryAdd | juritools/postprocessing/postprocess_from_text.py:55-66 | a candidate is appended, with its span, exactly when the guard accepts it; otherwise nothing changes |
| Matching.AddAllAppendsAccepted | juritools/postprocessing/postprocess.py:112-132 | offering candidates one by one appends exactly the accepted ones, as entities and as spans, in order, and changes nothing else |
| Matching.AddAllExtends | juritools/postprocessing/postprocess.py:112-132 | offering candidates only appends |
| Matching.AddAllCategory | juritools/postprocessing/postprocess_from_text.py:55-66 | offering candidates of one category appends only entities of that category |
| Matching.AcceptedLayered | juritools/postprocessing/postprocess.py:120-130 | for non-empty spans, every accepted span is disjoint from every span recorded before it, initial or accepted earlier |
| Matching.RecordedBoundaryRejected | juritools/postprocessing/postprocess.py:120-121 | a candidate whose start or end is already recorded is never accepted, however many candidates come before it |
| Matching.FoldedMatchSpellsKeyword | juritools/postprocessing/postprocess_from_text.py:43-53 | a keyword found in the accent-folded decision lies inside the decision, and the decision's text at that span folds to the keyword |
| Matching.KeywordCandidates | juritools/postprocessing/postprocess_from_text.py:55-66 | one candidate per keyword match, with the text sliced from the decision at the match |
| Matching.KeywordCandidatesInDocument | juritools/postprocessing/postprocess_from_text.py:55-66 | each keyword candidate, from the decision or its folded form, is read from the decision |
| Anonymizer.OrderedEntities | juritools/postprocessing/anonymizer.py:116-124 | the ordered view is a permutation of the entities, sorted by start |
| Anonymizer.Chosen | juritools/postprocessing/anonymizer.py:111-113 | the entities replaced are drawn from the ordered ones, at most once each, and all have a chosen category |
| Anonymizer.SpliceChosenIsSpliceAll | juritools/postprocessing/anonymizer.py:109-114 | the replacement loop does the same as splicing just the chosen entities |
| Anonymizer.NothingChosenUnchanged | juritools/postprocessing/anonymizer.py:111-114 | when no entity has a chosen category, the loop leaves the text unchanged |
| Anonymizer.NoChosenEntityUnchanged | juritools/postprocessing/anonymizer.py:99-114 | when no entity has a chosen category, the text is returned unchanged |
| Anonymizer.ChosenSorted | juritools/postprocessing/anonymizer.py:109-113 | keeping only the chosen entities keeps the descending order |
| Anonymizer.SpliceAllRenders | juritools/postprocessing/anonymizer.py:111-113 | splicing right to left through disjoint entities equals rendering left to right, text and tags interleaved |
| Anonymizer.ReplaceRendersChosen | juritools/postprocessing/anonymizer.py:99-114 | for distinct, non-empty, pairwise disjoint entities inside the text, the result is the text with each chosen entity, and only those, replaced by `[category]`, each at its original offsets |
| FromEntities.WithEntities | juritools/postprocessing/postprocess_from_entities.py:68-70 | a rule that edits the entity list in place leaves the recorded boundaries and the checklist alone |
| FromEntities.TextsInIff | juritools/postprocessing/postprocess_from_entities.py:47-49 | a text is among the compared texts exactly when some entity of a target category has it |
| FromEntities.SplitPieces | juritools/postprocessing/postprocess_from_entities.py:50-66 | an entity yields pieces exactly when it has a target category, more than one token, and every token is an entity text of a target category at least three characters long; then one piece per token, at the entity's start plus the token's offset, same category, post-processed |
| FromEntities.SplitMultiToks | juritools/postprocessing/postprocess_from_entities.py:29-70 | the split edits only the entity list |
| FromEntities.SplitMultiToksIff | juritools/postprocessing/postprocess_from_entities.py:41-56 | an entity is deleted by the split exactly when the split condition holds for it against the texts of all target-category entities |
| FromEntities.SplitPiecesInDocument | juritools/postprocessing/postprocess_from_entities.py:57-66 | with an honest tokenizer, every piece is read from the decision |
| FromEntities.SplitMultiToksInDocument | juritools/postprocessing/postprocess_from_entities.py:29-70 | with an honest tokenizer, the split keeps every entity read from the decision |
| FromEntities.AddressInMoral | juritools/postprocessing/postprocess_from_entities.py:72-86 | exactly the legal-person entities longer than one character that contain a street keyword become addresses; the others are unchanged |
| FromEntities.AddressInMoralIdempotent | juritools/postprocessing/postprocess_from_entities.py:72-86 | running the rule twice is running it once |
| FromEntities.LocaliteInAddress | juritools/postprocessing/postprocess_from_entities.py:88-102 | the rule edits only the entity list and keeps its length |
| FromEntities.LocaliteInAddressIff | juritools/postprocessing/postprocess_from_entities.py:94-100 | an entity changes category exactly when it is an address starting with five digits and a space; text and start are kept |
| FromEntities.LocaliteInAddressIdempotent | juritools/postprocessing/postprocess_from_entities.py:88-102 | running the rule twice is running it once |
| FromEntities.PhysicoMorale | juritools/postprocessing/postprocess_from_entities.py:112-136 | the rule edits only the entity list and keeps its length |
| FromEntities.PhysicoMoraleIff | juritools/postprocessing/postprocess_from_entities.py:123-134 | an entity changes exactly when it is a legal person, longer than one character, whose lower-cased text contains the lower-cased text of a natural person longer than one character; it then becomes `personnePhysicoMorale` |
| FromEntities.PhysicoMoraleIdempotent | juritools/postprocessing/postprocess_from_entities.py:112-136 | running the rule twice is running it once |
| FromEntities.NaturalKeywords | juritools/postprocessing/postprocess_from_entities.py:149-155 | the keywords are exactly the texts of natural persons longer than one character |
| FromEntities.NaturalPieces | juritools/postprocessing/postprocess_from_entities.py:156-173 | a legal person longer than one character yields one natural person per keyword match; any other entity yields none |
| FromEntities.NaturalPersonsInMoral | juritools/postprocessing/postprocess_from_entities.py:138-180 | the rule edits only the entity list |
| FromEntities.NaturalPersonsInMoralDeletes | juritools/postprocessing/postprocess_from_entities.py:159-178 | a legal person is deleted exactly when it is longer than one character and some natural-person keyword occurs in it |
| FromEntities.NaturalPersonsInMoralInDocument | juritools/postprocessing/postprocess_from_entities.py:159-178 | with an honest keyword matcher, the rule keeps every entity read from the decision |
| FromEntities.Occurrences | juritools/postprocessing/postprocess_from_entities.py:202-205 | a text is counted at least once exactly when it is in the list |
| FromEntities.ChangeProToPhysique | juritools/postprocessing/postprocess_from_entities.py:182-214 | the rule edits only the entity list and keeps its length |
| FromEntities.NaturalNamesIff | juritools/postprocessing/postprocess_from_entities.py:194-196 | the natural names are the lower-cased texts of natural persons longer than one character |
| FromEntities.ChangeProMatchesUnaccentedName | juritools/postprocessing/postprocess_from_entities.py:201-214 | an entity the rule changes becomes a natural person, and its folded text is the lower-cased text of a natural person with no accent: natural names are lower-cased but not folded |
| FromEntities.FixedHasNoAccent | juritools/utils/deaccent.py:20-43 | a text is left unchanged by folding exactly when it has no accented character |
| FromEntities.TrimYear | juritools/postprocessing/postprocess_from_entities.py:303-304 | trimming keeps start, category and source |
| FromEntities.TrimYearEnd | juritools/postprocessing/postprocess_from_entities.py:298-304 | a three-word date whose third word starts with four digits is at least eight characters long and loses its last five characters, so its end moves back by five |
| FromEntities.TrimYearInDocument | juritools/postprocessing/postprocess_from_entities.py:298-304 | a trimmed date is still read from the decision |
| FromEntities.ManageYearKeeps | juritools/postprocessing/postprocess_from_entities.py:306-317 | the list loses exactly as many entities as there are four-digit dates that are not three-word dates; a list without dates is unchanged |
| FromEntities.ManageYearIsFilterThenMap | juritools/postprocessing/postprocess_from_entities.py:297-317 | the rule deletes exactly the four-digit dates that are not three-word dates, keeps every other entity in its order, and replaces each three-word date whose third word starts with a year by itself less its last five characters |
| FromEntities.ManageYearKeepsNonDates | juritools/postprocessing/postprocess_from_entities.py:297-317 | the entities that are not dates come out exactly as they went in, in the same order |
| FromEntities.ManageYearInDocument | juritools/postprocessing/postprocess_from_entities.py:291-319 | the rule keeps every entity read from the decision |
| FromEntities.ManageYear | juritools/postprocessing/postprocess_from_entities.py:291-319 | the rule edits only the entity list |
| FromEntities.TextsWhere | juritools/postprocessing/postprocess_from_entities.py:330-339 | the collected texts are exactly the texts of the entities the test selects |
| FromEntities.CheckEntities | juritools/postprocessing/postprocess_from_entities.py:321-353 | the check keeps entities and boundaries and appends, in order, one message per text found in the examined category and in another, naming that text, the category and the other category found first |
| FromEntities.MultiClassTextsIff | juritools/postprocessing/postprocess_from_entities.py:330-345 | a text is reported exactly when an entity longer than one character has it in the examined category and another such entity has it in another category, physico-moral persons excepted when natural persons are examined |
| FromEntities.FirstOtherLabelFound | juritools/postprocessing/postprocess_from_entities.py:339-349 | the other category the message names is the category of an entity that has the text in another category |
| FromEntities.ShortTexts | juritools/postprocessing/postprocess_from_entities.py:364-372 | at most one short text per entity, each shorter than the threshold |
| FromEntities.ShortTextsCount | juritools/postprocessing/postprocess_from_entities.py:364-372 | there is one short text per entity of the examined category shorter than the threshold |
| FromEntities.ShortTextsInOrder | juritools/postprocessing/postprocess_from_entities.py:364-372 | the short texts are the lower-cased texts of the short entities of the examined category, in the order of those entities |
| FromEntities.CheckLenEntities | juritools/postprocessing/postprocess_from_entities.py:355-377 | the check keeps entities and boundaries and appends, in order, the too-short message of each short text |
| FromSents.GrowsTransitive | juritools/postprocessing/postprocess_from_sents.py:406-459 | the per-sentence invariant (spans kept, boundaries and checklist only appended to, the checklist only with the bank-account message) composes across steps |
| FromSents.ExtendsGrows | juritools/postprocessing/postprocess_from_sents.py:406-459 | a guarded insertion keeps the per-sentence invariant |
| FromSents.RelabelGrows | juritools/postprocessing/postprocess_from_sents.py:328-331 | relabelling to natural person keeps the per-sentence invariant |
| FromSents.RetagSpans | juritools/postprocessing/postprocess_from_sents.py:79-83 | exactly the tagger spans that are professional, or addresses shorter than three tokens, are retagged as natural persons |
| FromSents.Window | juritools/postprocessing/postprocess_from_sents.py:74-77 | the intended window around a `c/` sentence is a non-empty range of sentences containing it |
| FromSents.WindowAsWrittenAtStart | juritools/postprocessing/postprocess_from_sents.py:74-77 | as written, the window equals the intended one except for the first sentence, where the slice starts at -1 and is empty |
| FromSents.AgainstCase | juritools/postprocessing/postprocess_from_sents.py:70-89 | the rule keeps the number of sentences and entities, every entity's text and start, and every sentence's tokens |
| FromSents.AgainstIn | juritools/postprocessing/postprocess_from_sents.py:78-87 | retagging a window keeps the number of sentences and entities, every entity's text and start, and every sentence's tokens |
| FromSents.AgainstInOutcome | juritools/postprocessing/postprocess_from_sents.py:78-87 | an entity changes exactly when a retagged span in the window starts where it starts and it is not already a natural person; text, start and source never change |
| FromSents.AgainstInIdempotent | juritools/postprocessing/postprocess_from_sents.py:78-87 | retagging the same window twice is retagging it once |
| FromSents.AgainstCaseAtStart | juritools/postprocessing/postprocess_from_sents.py:74-77 | when the first sentence is `c/` and the next one holds a professional span on an entity, the code as written changes nothing, while the intended rule makes that entity a natural person |
| FromSents.PostalFromIff | juritools/postprocessing/postprocess_from_sents.py:94-95 | the postal-code search finds exactly the offsets where five digits sit between `(` or a space and `)`, `.`, `,` or a space |
| FromSents.PostalFromIncreasing | juritools/postprocessing/postprocess_from_sents.py:95 | the matches come in increasing order |
| FromSents.PostalApart | juritools/postprocessing/postprocess_from_sents.py:94 | two postal-code matches are at least six characters apart, so they never overlap |
| FromSents.PostalFrom | juritools/postprocessing/postprocess_from_sents.py:95 | every match lies inside the sentence |
| FromSents.PostalCandidates | juritools/postprocessing/postprocess_from_sents.py:96-107 | each match becomes a five-character locality at the sentence offset plus the match offset |
| FromSents.PostalCodes | juritools/postprocessing/postprocess_from_sents.py:91-109 | adding postal codes only appends |
| FromSents.PostalCodesSound | juritools/postprocessing/postprocess_from_sents.py:91-109 | every entity added is a post-processed five-digit locality that the pattern matches at that place of the sentence |
| FromSents.PostalCandidateSound | juritools/postprocessing/postprocess_from_sents.py:96-107 | every candidate built from a pattern match is such a locality |
| FromSents.FoldCity | juritools/postprocessing/postprocess_from_sents.py:121 | folding for the city search keeps the length of the sentence |
| FromSents.CitySpelling | juritools/postprocessing/postprocess_from_sents.py:120-139 | a city found in the folded sentence lies inside the sentence, and the sentence's text at its span folds to the city |
| FromSents.CitiesFrom | juritools/postprocessing/postprocess_from_sents.py:126-146 | the city loop only appends |
| FromSents.CityStep | juritools/postprocessing/postprocess_from_sents.py:127-146 | one city match only appends, and a match whose keyword begins the folded sentence changes nothing |
| FromSents.CityStepSound | juritools/postprocessing/postprocess_from_sents.py:127-146 | one accepted city match adds only postal codes of the sentence and its own city at the sentence offset plus the match offset |
| FromSents.CitiesFromSound | juritools/postprocessing/postprocess_from_sents.py:126-146 | every entity the city loop adds is a fenced postal code of the sentence or the city of a match not beginning the folded sentence, read with the sentence's spelling at the sentence offset plus the match offset |
| FromSents.CitiesSkipSentenceStart | juritools/postprocessing/postprocess_from_sents.py:127-129 | a match whose keyword begins the folded sentence contributes nothing, wherever it stands among the matches |
| FromSents.Cities | juritools/postprocessing/postprocess_from_sents.py:111-148 | the rule only appends, adds nothing when the sentence holds an excluding keyword, and adds only postal codes of the sentence and the cities of matches that do not begin the folded sentence, each at the sentence offset plus the match offset |
| FromSents.CitiesNoneAccepted | juritools/postprocessing/postprocess_from_sents.py:126-133 | when every city found either starts the folded sentence or is refused by the guard, nothing is added, postal codes included |
| FromSents.LocalityKeywords | juritools/postprocessing/postprocess_from_sents.py:161-167 | the keywords are exactly the locality texts longer than one character |
| FromSents.LocalityPieces | juritools/postprocessing/postprocess_from_sents.py:168-185 | a legal person longer than one character yields one locality per keyword match; any other entity yields none |
| FromSents.CitiesInMoral | juritools/postprocessing/postprocess_from_sents.py:150-192 | the rule edits only the entity list |
| FromSents.CitiesInMoralDeletes | juritools/postprocessing/postprocess_from_sents.py:171-190 | a legal person is deleted exactly when it is longer than one character and some locality keyword occurs in it; every other entity stays |
| FromSents.CitiesInMoralInDocument | juritools/postprocessing/postprocess_from_sents.py:171-190 | with an honest keyword matcher, the rule keeps every entity read from the decision |
| FromSents.ShiftedCandidates | juritools/postprocessing/postprocess_from_sents.py:267-279 | each match becomes a candidate at the sentence offset plus the match offsets |
| FromSents.TriggeredMatches | juritools/postprocessing/postprocess_from_sents.py:261-306 | a triggered pattern rule only appends, and adds nothing without a trigger word in the sentence |
| FromSents.SirenSiret | juritools/postprocessing/postprocess_from_sents.py:261-282 | the SIREN/SIRET rule only appends |
| FromSents.PhoneNumbers | juritools/postprocessing/postprocess_from_sents.py:284-306 | the phone-number rule only appends |
| FromSents.TriggeredMatchesInDocument | juritools/postprocessing/postprocess_from_sents.py:264-280 | with an honest pattern matcher on a sentence read from the decision, every added entity had a trigger, is read from the decision, and has the rule's category and the post-processing source |
| FromSents.ShiftedInDocument | juritools/postprocessing/postprocess_from_sents.py:267-279 | a match shifted by the sentence offset is read from the decision |
| FromSents.FindDigitRun | juritools/postprocessing/postprocess_from_sents.py:346 | the search reports a run of five (or n) digits exactly when the sentence holds one |
| FromSents.BankAccountInSentence | juritools/postprocessing/postprocess_from_sents.py:336-359 | the check changes neither entities nor boundaries, and appends at most the one bank-account message |
| FromSents.BankAccountInSentenceIff | juritools/postprocessing/postprocess_from_sents.py:340-357 | the message is appended exactly when the keyword is found, the sentence holds five consecutive digits, and no bank account starts between the sentence's first token and the end of its last |
| FromSents.NoContextRule | juritools/postprocessing/postprocess_from_sents.py:308-334 | the rule changes only entities, keeps their number, and changes nothing unless every alphabetic token of the sentence is tagged professional |
| FromSents.NoContextOutcome | juritools/postprocessing/postprocess_from_sents.py:324-332 | when it fires, every entity starting within the sentence bounds, inclusive, becomes a post-processed natural person, whatever its category; other entities are unchanged |
| FromSents.ContextPastSentence | juritools/postprocessing/postprocess_from_sents.py:387-389 | the context is sliced from the sentence's own text with an offset in the decision, so for any sentence starting at or beyond its own length the context is empty |
| FromSents.WithContext | juritools/postprocessing/postprocess_from_sents.py:361-404 | the rule edits only the entity list |
| FromSents.WithContextOutcome | juritools/postprocessing/postprocess_from_sents.py:384-400 | only professional entities inside the sentence change, and running the rule twice is running it once |
| FromSents.Facilities | juritools/postprocessing/postprocess_from_sents.py:243-257 | the facility rule only appends, and every entity it adds is a proposed facility whose start and end are both non-zero, since the test is on truthiness |
| FromSents.AddedFromCandidates | juritools/postprocessing/postprocess.py:127-132 | every entity the guard appends is the entity of one of the candidates offered to it |
| FromSents.FacilitiesAdded | juritools/postprocessing/postprocess_from_sents.py:243-257 | offering only the proposed facilities with non-zero offsets appends, and appends only entities of such facilities |
| FromSents.Inserts | juritools/postprocessing/postprocess_from_sents.py:432-449 | the inserting rules of one sentence keep the per-sentence invariant |
| FromSents.Relabels | juritools/postprocessing/postprocess_from_sents.py:450-457 | the relabelling rules of one sentence keep the per-sentence invariant |
| FromSents.SentenceStep | juritools/postprocessing/postprocess_from_sents.py:422-457 | one sentence's pass keeps every sentence's tokens and the per-sentence invariant |
| FromSents.ApplyFrom | juritools/postprocessing/postprocess_from_sents.py:421-457 | the remaining sentences' passes keep the invariant |
| FromSents.ApplyMethods | juritools/postprocessing/postprocess_from_sents.py:406-459 | the whole pass never removes or moves an entity, only appends boundaries, and only appends bank-account messages to the checklist |
| FromSents.ApplyNothing | juritools/postprocessing/postprocess_from_sents.py:406-459 | with every rule switched off the pass changes nothing |
| FromText.OwnKeywords | juritools/postprocessing/postprocess_from_text.py:43-51 | an entity contributes its text, and its upper-case form when that differs and upper case is asked for, exactly when its category is listed and its text is longer than one character |
| FromText.CategoryKeywordsIff | juritools/postprocessing/postprocess_from_text.py:43-53 | a keyword is registered under a category exactly when some entity contributes it |
| FromText.LabelCandidates | juritools/postprocessing/postprocess_from_text.py:56-66 | each keyword match becomes a candidate sliced from the decision, with the keyword's category |
| FromText.MatchFromCategory | juritools/postprocessing/postprocess_from_text.py:24-69 | the rule only appends |
| FromText.MatchFromCategoryAdds | juritools/postprocessing/postprocess_from_text.py:55-66 | every entity added is the decision's text at a reported match of a registered keyword, with that keyword's category, post-processed |
| FromText.LuhnChecksum | juritools/postprocessing/postprocess_from_text.py:147-151 | the loop computes the Luhn sum modulo 10, and the number is valid exactly when it is 0 |
| FromText.CheckDigitUnique | juritools/postprocessing/postprocess_from_text.py:147-151 | at most one check digit makes a number Luhn-valid |
| FromText.RegexCandidates | juritools/postprocessing/postprocess_from_text.py:156-166 | each regular-expression match becomes a candidate at its own offsets, with its group's category |
| FromText.MatchRegex | juritools/postprocessing/postprocess_from_text.py:71-169 | the intended rule only appends |
| FromText.MatchRegexChecksums | juritools/postprocessing/postprocess_from_text.py:139-167 | every entity the intended rule adds comes from a match that passed its check: a valid IBAN, a Luhn-valid card number, or any match of the other groups |
| FromText.RegexLabelsRejected | juritools/postprocessing/postprocess_from_text.py:105-166 | as written, building a regex entity always fails: the source `regex` is unknown, and the label `noInsee` is unknown too |
| FromText.InseeLabelUnknown | juritools/postprocessing/postprocess_from_text.py:113 | `noInsee` parses to no category |
| FromText.MatchRegexAsWrittenFails | juritools/postprocessing/postprocess_from_text.py:156-166 | as written, the first email match the guard accepts raises a validation error |
| FromText.MatchRegexAsWrittenAddsNothing | juritools/postprocessing/postprocess_from_text.py:139-167 | as written, the rule either fails or adds nothing, and it succeeds unchanged when no match passes its check |
| FromText.Report | juritools/postprocessing/postprocess_from_text.py:424-427 | a report changes only the checklist, appending the message exactly when it fires |
| FromText.CountCategoryConcat | juritools/postprocessing/postprocess_from_text.py:421 | counting a category over two lists adds the counts |
| FromText.CheckCadastre | juritools/postprocessing/postprocess_from_text.py:412-427 | the cadastre check changes only the checklist |
| FromText.CheckCompteBancaire | juritools/postprocessing/postprocess_from_text.py:429-442 | the bank-account check changes only the checklist |
| FromText.ChecksMonotone | juritools/postprocessing/postprocess_from_text.py:412-442 | the cadastre message is added exactly when some cue is found and there are at least as many cues as cadastre entities; one more entity never makes either check report more |
| FromText.OtherFirstNameLost | juritools/postprocessing/postprocess_from_text.py:230-240 | as written, a row's second first name is never collected (the first name is added in its place), and a row with only a second first name fails |
| FromText.Unique | juritools/postprocessing/postprocess_from_text.py:272-280 | the unique names of a group hold every name found only in that group, plus the upper-case forms of those names, and nothing else |
| FromText.UniqueBasesDisjoint | juritools/postprocessing/postprocess_from_text.py:272-280 | before upper-casing, the party, professional and lawyer unique names are pairwise disjoint |
| FromText.Reclassify | juritools/postprocessing/postprocess_from_text.py:284-304 | reclassifying keeps text and start |
| FromText.ReclassifyOutcome | juritools/postprocessing/postprocess_from_text.py:284-304 | a professional whose folded text is a unique party name becomes a natural person; otherwise a lawyer with a unique professional name becomes a magistrate, and a magistrate with a unique lawyer name becomes a lawyer; nothing else changes |
| FromText.InsertUndetected | juritools/postprocessing/postprocess_from_text.py:306-333 | inserting undetected party names only appends |
| FromText.InsertUndetectedSound | juritools/postprocessing/postprocess_from_text.py:306-333 | with an honest matcher on the folded decision, every added entity is a post-processed natural person read from the decision, whose folded text is a party name not yet detected |
| FromText.KeywordCandidateFolds | juritools/postprocessing/postprocess_from_text.py:315-330 | each candidate found in the folded decision is read from the decision and folds to a searched name |
| FromText.InsertUndetectedNothingMissing | juritools/postprocessing/postprocess_from_text.py:306-312 | when every party name is already detected, nothing is inserted |
| FromText.MetadataJurinet | juritools/postprocessing/postprocess_from_text.py:218-335 | without metadata nothing changes; otherwise the checklist is kept, no entity is lost and the boundaries are only appended to |
| FromText.MetadataJurica | juritools/postprocessing/postprocess_from_text.py:337-378 | without metadata nothing changes; otherwise the rule only appends |
| FromText.FacilityKeywords | juritools/postprocessing/postprocess_from_text.py:450-460 | the keywords are the facility phrase followed by each of the six locations |
| FromText.JuvenileFacilities | juritools/postprocessing/postprocess_from_text.py:444-473 | the rule only appends, and only facilities |
| FromText.ManageLe | juritools/postprocessing/postprocess_from_text.py:475-507 | an entity is kept exactly when it is not a `le` sitting three to five characters after a found `m. le <title>`, and the kept entities are the input read at the ascending indices of those entities, so order and repetitions are kept |
| FromText.ManageLeCount | juritools/postprocessing/postprocess_from_text.py:489-505 | the list shrinks by exactly the number of `le` entities hit, and without a match nothing changes |
| FromText.LeadingTrimInDocument | juritools/postprocessing/postprocess_from_text.py:521-525 | cutting a leading quote removes that one character and then exactly the run of whitespace after it, keeps the end, and leaves an entity read from the decision |
| FromText.TrailingTrimInDocument | juritools/postprocessing/postprocess_from_text.py:530-534 | cutting a trailing quote removes that one character and then exactly the run of whitespace before it, keeps the start, and leaves an entity read from the decision |
| FromText.QuoteEntity | juritools/postprocessing/postprocess_from_text.py:515-535 | entities other than natural persons are left alone |
| FromText.QuoteDeletes | juritools/postprocessing/postprocess_from_text.py:516-519 | an entity is deleted exactly when it is a natural person whose text is one quote character |
| FromText.QuoteInDocument | juritools/postprocessing/postprocess_from_text.py:515-535 | a kept entity stays read from the decision and inside its original span |
| FromText.ManageQuoteIn | juritools/postprocessing/postprocess_from_text.py:537-541 | the rule never adds entities |
| FromText.ManageQuoteInDocument | juritools/postprocessing/postprocess_from_text.py:509-543 | the rule keeps every entity read from the decision |
| FromText.ManageQuote | juritools/postprocessing/postprocess_from_text.py:509-543 | the rule edits only the entity list |
| FromText.QuoteExample | juritools/postprocessing/postprocess_from_text.py:517-525 | `" Amaury` at 0 becomes `Amaury` at 2, keeping its end |
| Preprocess.ReplaceSpecificEncoding | juritools/preprocess.py:12-14 | every form feed and carriage return becomes a line feed; every other character and the length are kept |
| Preprocess.EncodingNormalised | juritools/preprocess.py:12-14 | the result has no form feed or carriage return, and normalising twice is normalising once |
| Preprocess.EncodingFixesNormalText | juritools/preprocess.py:12-14 | a text without form feeds or carriage returns is unchanged |
| Preprocess.NewDecision | juritools/type.py:344-360 | a decision is built exactly when its text is non-empty, and keeps its source, text and parties |
| Preprocess.Formatted | juritools/preprocess.py:102 | a present optional field prints as its value |
| Preprocess.JuritjSentence | juritools/preprocess.py:102 | the party sentence is the printed title, a space, the printed first name, a space and the name |
| Preprocess.JuritjDefaultTitle | juritools/type.py:318-319 | an empty title leaves a leading space: `" Paul Dupont"` |
| Preprocess.JuritjNullsPrinted | juritools/preprocess.py:102 | missing title and first name print as `None`: `"None None Dupont"` |
| Preprocess.JuricaSentences | juritools/preprocess.py:82-89 | the tagged sentences are exactly the identities of the natural-person parties |
| Preprocess.JuricaOthersIgnored | juritools/preprocess.py:88 | a party that is not a natural person adds no sentence |
| Preprocess.JuritjSentences | juritools/preprocess.py:100-107 | the tagged sentences are exactly the printed sentences of the natural-person parties |
| Preprocess.PersonTexts | juritools/preprocess.py:118-125 | the texts kept from one sentence are exactly those of its spans tagged `personnePhysique` |
| Preprocess.PersonSpansIff | juritools/preprocess.py:117-125 | a text is collected exactly when some sentence has a span with that text tagged `personnePhysique` |
| Preprocess.PersonSpansIffAll | juritools/preprocess.py:117-125 | the same, for every text at once |
| Preprocess.ParseMetadata | juritools/preprocess.py:111-126 | the metadata names are exactly the tagged person texts, each once |
| Preprocess.PreProcess | juritools/preprocess.py:29-41 | preprocessing fails exactly when the parties are non-empty and not of the decision source's shape; the text is normalised; there is no metadata exactly when the parties are missing or empty; Jurinet keeps its rows, and Jurica and JuriTJ get tagged names |
| Preprocess.JuricaNamesIff | juritools/preprocess.py:75-91 | for a Jurica decision, a name is in the metadata exactly when it is tagged as a person in the identity of some natural-person party |
| Preprocess.JuritjNamesIff | juritools/preprocess.py:93-109 | for a JuriTJ decision, a name is in the metadata exactly when it is tagged as a person in the printed sentence of some natural-person party |
| JuriLoss.TagText | juritools/juriloss.py:55-79 | a tag prints as `O`, or as `B-` or `I-` followed by the category value |
| JuriLoss.ModelCategories | juritools/juriloss.py:43-48 | the model categories are exactly the second parts of the labels that start with `B` and have exactly one `-` |
| JuriLoss.SplitWithoutSeparator | juritools/juriloss.py:46-47 | a text without the separator splits into itself |
| JuriLoss.CategoryValueNoDash | juritools/juriloss.py:46-47 | no category value contains `-` |
| JuriLoss.BeginLabelCategory | juritools/juriloss.py:46-47 | `B-` followed by a value without `-` is a begin label whose category is that value |
| JuriLoss.BeginTagsRoundTrip | juritools/juriloss.py:43-48 | the model categories read from the begin tags of a category list include each of those categories |
| JuriLoss.OfModel | juritools/juriloss.py:49-50 | the filtered annotations are exactly those whose category is a model category, in their order and with their repetitions |
| JuriLoss.FilterKeepsSorted | juritools/juriloss.py:38-49 | filtering the sorted gold annotations keeps them sorted |
| JuriLoss.Compare | juritools/juriloss.py:38-50 | without treatments the input is rejected; the gold annotations are the last treatment's, sorted by start, and the predictions are the first treatment's, both restricted to model categories in order when asked |
| JuriLoss.BioTagFirstHit | juritools/juriloss.py:53-65 | a token is `O` exactly when no annotation covers its start; otherwise it gets the tag of the first annotation that does, `B-` at the annotation's start and `I-` inside it |
| JuriLoss.LabelTokens | juritools/juriloss.py:51-79 | without treatments the input is rejected; otherwise there is one label pair per token of each sentence |
| JuriLoss.LabelTokensFirstHit | juritools/juriloss.py:51-79 | each token's annotator and model tags are those of the first gold and first predicted annotation covering it, or `O` when none does |

## Left out

- `juritools/main.py`, `juritools/predict.py`, the readers and `utils/instantiate_flashtext.py` are glue around the core. They load models, read files and wire the passes together, and are not part of this model.
- `output_json` (`postprocess.py:92-110`) and every JSON or `dict` conversion are serialisation. The ordering and relabelling they use are modelled (`Guard.OrderedEntities`, `CamelCase.MapToCamelCase`).
- `replace_person_entities` and `replace_other_entities` (`anonymizer.py:14-97`) draw random pseudonyms and use a keyword-replacement library. Only the offset-based replacement is modelled.
- The tagger, the tokenizer, the sentence splitter, the keyword matcher and the regular-expression engine are parameters. Their honesty (a reported match is the text at its span) is a precondition of the lemmas that need it.
- The IBAN validation of `match_regex` (ISO 13616, a library call) is a predicate parameter.
- The Luhn check is modelled by its standard definition, because the library function it calls is not part of this model.
- Scores, `__hash__` and floating point are not modelled. `similarity` is returned as an exact fraction, and the AZERTY distance is counted in half units.
- The loss computations of `juriloss.py` (lines 81-150) use tensors and floating point and are left out. Only the label extraction is modelled.
- `match_name_in_website` (`postprocess_from_text.py:171-216`) finds website addresses with a regular expression, splits them on dots and slashes and adds every piece that contains the text of a tagged person (or organisation) as a `siteWebSensible` entity; it is left out because the regular expressions and the splitting are not modelled, and it is not among the rules this model covers.
- `check_metadata` (`postprocess_from_text.py:380-410`) is left out.
- The `use_meta` branch of `change_pro_to_physique` (`postprocess_from_entities.py:216-238`) reads a metadata table whose columns no preprocessing produces, and is left out.
- The code kept in a string after `check_len_entities` (`postprocess_from_entities.py:380` on) is dead and left out.
- The `legal` branch (`postprocess_from_text.py:263-270`) and `party_address` are collected and never used, so they have no effect and are left out.
- The lists that rules return (matched texts, counts, messages such as "No match!") are not modelled. The model returns the new engine state.
- Iteration over Python sets (`check_entities`, the category list of a message) has no fixed order. The model uses one deterministic order and states set membership, not order.
- Jurinet rows have 19 columns. The model keeps only the fields the rules read.
- A party list whose shape does not fit the decision's source is rejected with an error. The code may instead build a malformed table.
- When no Jurica or JuriTJ party is tagged as a person, the code builds a table with no `text` column, and `match_metadata_jurica` would fail on it. The model gives an empty name list, so the rule adds nothing.
- Character classes and case mapping are modelled on the ASCII and Latin-1 blocks only. Python's `\d` and `str.isdigit` accept digits of every script, and `str.lower` and `str.upper` map all of Unicode (`"cœur".upper()` is `"CŒUR"`, `"ß".upper()` is `"SS"`), whereas `Base.Lower` and `Base.Upper` leave other characters unchanged and keep the length. Everything that lower-cases, upper-cases or tests digits inherits this, including `Types.EntityId`, `FromText.OwnKeywords`, `FromText.Unique`, the label tests of the audit checks and the digit runs of the sentence rules.
- Labels outside the category enumeration cannot be represented; `CamelCase.MapToCamelCase` works on label names to cover them.
- `Sentence.to_original_text` is a field of the modelled sentence. Whether the tokenizer pads it to document offsets decides whether the context slice of `change_pro_to_physique_with_context` is meaningful, and `FromSents.ContextPastSentence` states the case where it is not.
- FromSents.Facilities: the token heuristic that grows a facility from the capitalised tokens after a keyword (`postprocess_from_sents.py:203-241`) is not modelled. The proposed facilities are a parameter, and only the truthiness filter and the guard are modelled.
- Types.MergeCommutative: holds only for entities read from the same decision. For unrelated texts the merged text depends on the order of the arguments.
- Types.GetMessage: the printed form of an entity is a parameter, `show`, since it depends on pydantic's `__str__`.
- FromText.MetadataJurinet: its own contract states only what is kept. The content of the changes is stated by `FromText.ReclassifyOutcome` and `FromText.InsertUndetectedSound`.
- FromEntities.ChangeProToPhysique: the relabelled category is `personnePhysique`. The code copies the label of the first natural person with the same name, which the model's categories reduce to that one.

## Findings

| source | as written | input that shows it | evidently intended | confidence | as-written member | corrected member |
|---|---|---|---|---|---|---|
| juritools/postprocessing/postprocess_from_text.py:113 | the INSEE group gets the label `noInsee`, and every regex entity gets the source `regex`; neither is a value of its enumeration, so building the entity raises | any e-mail address in a decision with no recorded entity | labels and source that parse: `numeroIdentifiant` (or its alias `insee`) and `postprocess` | not executed | `FromText.MatchRegexAsWritten`, shown by `FromText.MatchRegexAsWrittenFails` and `FromText.MatchRegexAsWrittenAddsNothing` | `FromText.MatchRegex`, with `FromText.MatchRegexChecksums` |
| juritools/postprocessing/postprocess_from_text.py:233-234 | when `AUTRE_PRENOM` is present, `PRENOM` is added again; the second first name is never collected, and a missing `PRENOM` makes `deaccent` fail (same at lines 248-249) | a row with `PRENOM` "Jean" and `AUTRE_PRENOM` "Paul" | add the folded `AUTRE_PRENOM` | not executed | `FromText.RowNamesAsWritten`, shown by `FromText.OtherFirstNameLost` | `FromText.RowNames`, with `FromText.OtherFirstNameLost` |
| juritools/postprocessing/postprocess_from_sents.py:74-77 | for a `c/` sentence at index 0 the window is `sentences[-1:2]`, empty as soon as there are three sentences | three sentences, the first `c/`, the second holding a professional span | the sentences from index 0 to 1, as for index 1 | not executed | `FromSents.AgainstCaseAsWritten`, shown by `FromSents.AgainstCaseAtStart` and `FromSents.WindowAsWrittenAtStart` | `FromSents.AgainstCase`, with `FromSents.Window` and `FromSents.AgainstInOutcome` |
| juritools/type.py:144-146 | the second f-string of the incorrect-metadata message is a separate statement, so the message never lists the terms | a check with metadata text `["Dupont"]` | the message ends with the terms and the under-annotation warning | not executed | `Types.GetMessageAsWritten`, shown by `Types.IncorrectMetadataDropsTerms` | `Types.GetMessage`, with `Types.MetadataMessageMentions` |
| juritools/postprocessing/postprocess.py:73 | `professionnelavocat` maps to `professionelAvocat`, which is no category | an entity labelled `professionnelavocat` | `professionnelAvocat` | not executed | `CamelCase.ValueAsWritten`, shown by `CamelCase.LawyerLabelMisspelt` | `CamelCase.Value`, with `CamelCase.LawyerLabelParses` |
