# Intelligent scraper core, modelled in Dafny

The repository collects what the public web knows about a researcher and turns it into a
report. Its scrapers search Wikipedia, news listings, Google Scholar and university sites,
score each hit against the person's name and read the chosen profile. The processors merge
publication records from Crossref and Semantic Scholar, find and download the papers, and
analyse their text. The report writers ask a generative model for each report section,
retrying and falling back to other models when the quota runs out. A citation ledger
records which paper each section cites. A checklist lists every paper and its download
state, a PDF writer lays the profile out, and a small web server runs scrape jobs and
reports on their progress.

This project models the bookkeeping and string logic of that core and proves what the code
promises about it:
- the citation ledger keeps its three dictionaries consistent, and re-registering a paper is an upsert;
- the retry, backoff and fallback policy, and the split and rejoin of long prompts;
- merging and de-duplicating publication records, and filtering them by author;
- the additive, capped confidence scores, and the ranking of candidates as a stable sort of a permutation;
- text cleaning, HTML escaping and the markdown-to-markup chain;
- the job-record state machine of the server.

Every module stands for one source file. Where the repository holds identical copies of a
file, it is modelled once and both copies are cited. Module `Wrappers` supplies Option and
Result. Modules `Text`, `Sorting`, `OrderedMaps`, `Dedup`, `Quotes` and `Json` hold the
Python built-ins and shared shapes the code relies on:
- string methods and sorting;
- a dict with its key order;
- keep-the-first filtering;
- the quotation `findall`;
- JSON values with Python truthiness.

Numbers that are floats in the source are exact integers here:
- confidence increments in tenths;
- source weights in tenths and confidences in hundredths;
- the progress percentage in hundredths;
- download rates in percent.

The generative model is a service whose answer to the n-th call is given. Each `time.sleep`
is an entry in a recorded delay log.

## Model

| member | source | states |
|---|---|---|
| BaseScraper.EntitiesStartWithAmp | implementations/intelligent_data_scraper/scrapers/base_scraper.py:77-84 | every entity in the replacement table starts with '&' and so is never empty |
| BaseScraper.Cleaned | implementations/intelligent_data_scraper/scrapers/base_scraper.py:68-89 | the cleaned text neither starts nor ends with whitespace |
| BaseScraper.CleanText | implementations/intelligent_data_scraper/scrapers/base_scraper.py:68-89 | the collapse, then one replacement pass per entity in table order, then strip, compute the cleaned text; the identical copy is implementations/intelligent-scraper/v1/scrapers/base_scraper.py:68-89 |
| BaseScraper.ReplaceAbsent | implementations/intelligent_data_scraper/scrapers/base_scraper.py:87 | replacing a pattern that does not occur leaves the string unchanged |
| BaseScraper.NoAmpNoEntity | implementations/intelligent_data_scraper/scrapers/base_scraper.py:86-87 | a string without '&' contains no entity |
| BaseScraper.DecodedNoAmp | implementations/intelligent_data_scraper/scrapers/base_scraper.py:86-87 | without '&', no replacement pass changes anything |
| BaseScraper.JoinWordsLast | implementations/intelligent_data_scraper/scrapers/base_scraper.py:74 | joined non-empty words end with the last character of the last word |
| BaseScraper.StripTrimmed | implementations/intelligent_data_scraper/scrapers/base_scraper.py:89 | a string that starts and ends with non-whitespace is its own strip |
| BaseScraper.WordsNoAmp | implementations/intelligent_data_scraper/scrapers/base_scraper.py:74 | splitting a string without '&' gives words without '&' |
| BaseScraper.JoinNoAmp | implementations/intelligent_data_scraper/scrapers/base_scraper.py:74 | joining words without '&' gives a string without '&' |
| BaseScraper.CleanedWithoutEntities | implementations/intelligent_data_scraper/scrapers/base_scraper.py:68-89 | on text without '&', cleaning is exactly the whitespace collapse: single spaces between the words, none at either end |
| BaseScraper.CollapseWord | implementations/intelligent_data_scraper/scrapers/base_scraper.py:74 | a non-empty string without whitespace survives the collapse unchanged |
| BaseScraper.AmpDecodedFirst | implementations/intelligent_data_scraper/scrapers/base_scraper.py:77-87 | entities are decoded one pass each in table order, `&amp;` first, so "&amp;lt;" ends as "<" |
| BaseScraper.DecodedFrom | implementations/intelligent_data_scraper/scrapers/base_scraper.py:86-87 | once no '&' is left, the remaining passes change nothing |
| BaseScraper.NbspAfterCollapse | implementations/intelligent_data_scraper/scrapers/base_scraper.py:74-87 | the collapse runs before decoding, so a decoded `&nbsp;` leaves two spaces in a row in "a&nbsp;&nbsp;b"; the identical copy is implementations/intelligent-scraper/v1/scrapers/base_scraper.py:74-87 |
| BaseScraper.DecodedKeeps | implementations/intelligent_data_scraper/scrapers/base_scraper.py:86-87 | the first passes leave the string alone when none of their patterns occurs |
| BaseScraper.ShouldCache | implementations/intelligent_data_scraper/scrapers/base_scraper.py:102-111 | content is cached exactly when its stripped form has at least 50 characters and it is within the size limit; the identical copy is implementations/intelligent-scraper/v1/scrapers/base_scraper.py:102-111 |
| BaseScraper.Scraper.constructor | implementations/intelligent_data_scraper/scrapers/base_scraper.py:15-16 | the scraper starts with or without a cache manager and nothing stored |
| BaseScraper.Scraper.StoreData | implementations/intelligent_data_scraper/scrapers/base_scraper.py:113-119 | one row reaches the cache exactly when there is a cache manager and `should_cache` holds; otherwise nothing changes; the identical copy is implementations/intelligent-scraper/v1/scrapers/base_scraper.py:113-119 |
| BaseScraper.Scraper.GetCachedData | implementations/intelligent_data_scraper/scrapers/base_scraper.py:121-125 | the manager's rows when there is a manager, [] without one; the identical copy is implementations/intelligent-scraper/v1/scrapers/base_scraper.py:121-125 |
| BaseScraper.Pow2 | implementations/intelligent_data_scraper/scrapers/base_scraper.py:43 | a power of two is at least one |
| BaseScraper.Backoffs | implementations/intelligent_data_scraper/scrapers/base_scraper.py:42-43 | the sleeps between attempts are `2 ** 0` up to `2 ** (k - 1)` |
| BaseScraper.FirstSuccess | implementations/intelligent_data_scraper/scrapers/base_scraper.py:30-38 | the first attempt, below the retry limit, whose request succeeds; none exactly when every attempt fails |
| BaseScraper.MakeRequest | implementations/intelligent_data_scraper/scrapers/base_scraper.py:28-48 | at most `MAX_RETRIES` attempts with a `2 ** attempt` sleep after each failure but the last; the first successful response is returned, None after the last failure; the identical copy is implementations/intelligent-scraper/v1/scrapers/base_scraper.py:28-48 |
| BaseScraper.BackoffsTotal | implementations/intelligent_data_scraper/scrapers/base_scraper.py:42-43 | the sleeps before attempt `k` add up to `2 ** k - 1` seconds |
| BaseScraper.Decoded | implementations/intelligent_data_scraper/scrapers/base_scraper.py:86-87 | the string after `text.replace(entity, char)` for the first `n` entries of the table, in table order; DecodedFrom, DecodedKeeps and DecodedNoAmp state its properties |
| ContentAnalyzer.SetOf | implementations/intelligent-scraper/v2/lib/content_analyzer.py:174 | a list's set holds exactly its elements |
| ContentAnalyzer.FirstSeparator | implementations/intelligent-scraper/v2/lib/content_analyzer.py:149 | the first sentence separator at or after a position, or -1 when there is none |
| ContentAnalyzer.Sentences | implementations/intelligent-scraper/v2/lib/content_analyzer.py:149 | splitting on an end-of-sentence mark followed by whitespace gives at least one piece, the first a prefix of the text, and no piece holds a separator |
| ContentAnalyzer.JoinSentencesHead | implementations/intelligent-scraper/v2/lib/content_analyzer.py:151 | joining sentences by ". " does not start with whitespace when the first sentence does not |
| ContentAnalyzer.FirstSeparatorAfter | implementations/intelligent-scraper/v2/lib/content_analyzer.py:149-151 | after a separator-free first sentence the first separator is the ". " that follows it |
| ContentAnalyzer.SentencesCons | implementations/intelligent-scraper/v2/lib/content_analyzer.py:149-151 | splitting "a. j" cuts off `a` and goes on with `j` |
| ContentAnalyzer.SentencesOfJoin | implementations/intelligent-scraper/v2/lib/content_analyzer.py:149-151 | joining separator-free sentences by ". " and splitting again gives the sentences back |
| ContentAnalyzer.AbstractFromHeading | implementations/intelligent-scraper/v2/lib/content_analyzer.py:142-145 | a heading abstract is stripped, single-spaced and at most 1000 characters |
| ContentAnalyzer.AbstractFallback | implementations/intelligent-scraper/v2/lib/content_analyzer.py:148-153 | without a heading match there is an abstract exactly when the first 2000 characters split into more than three sentences, and it is the first three joined by ". " with a final "." |
| ContentAnalyzer.ExtractAbstract | implementations/intelligent-scraper/v2/lib/content_analyzer.py:130-153 | the cleaned group of the first heading pattern that matches, otherwise the three-sentence fallback, otherwise nothing |
| ContentAnalyzer.StripAllStripped | implementations/intelligent-scraper/v2/lib/content_analyzer.py:175 | every element of a stripped list is stripped |
| ContentAnalyzer.StrippedLong | implementations/intelligent-scraper/v2/lib/content_analyzer.py:175 | the kept key points are exactly the stripped candidates longer than 20 characters |
| ContentAnalyzer.KeyPointCandidates | implementations/intelligent-scraper/v2/lib/content_analyzer.py:161-171 | the candidates are the section headings longer than five characters and the first ten bullets |
| ContentAnalyzer.LongerThan | implementations/intelligent-scraper/v2/lib/content_analyzer.py:170 | the kept headings are exactly those longer than five characters |
| ContentAnalyzer.KeyPoints | implementations/intelligent-scraper/v2/lib/content_analyzer.py:155-177 | at most 15 points, each a stripped candidate longer than 20 characters; with at most 15 distinct candidates none is lost |
| ContentAnalyzer.KeyPointsSound | implementations/intelligent-scraper/v2/lib/content_analyzer.py:174-175 | every kept point is a stripped candidate |
| ContentAnalyzer.KeyPointsComplete | implementations/intelligent-scraper/v2/lib/content_analyzer.py:174-175 | with at most 15 distinct candidates, every candidate long enough once stripped is kept |
| ContentAnalyzer.StripAllMembers | implementations/intelligent-scraper/v2/lib/content_analyzer.py:175 | the strip of each element is in the stripped list |
| ContentAnalyzer.StripAllWithin | implementations/intelligent-scraper/v2/lib/content_analyzer.py:174-175 | stripping keeps membership between lists |
| ContentAnalyzer.EnumerationLength | implementations/intelligent-scraper/v2/lib/content_analyzer.py:174 | a listed set is as long as the set is large |
| ContentAnalyzer.Returned | implementations/intelligent-scraper/v2/lib/content_analyzer.py:186-197 | what `findall` returns for one match: group 1 for the grouped `experiment(al)?` pattern as written, else the match |
| ContentAnalyzer.ReturnedAll | implementations/intelligent-scraper/v2/lib/content_analyzer.py:197 | one returned value per match, in order |
| ContentAnalyzer.CollectedUpTo | implementations/intelligent-scraper/v2/lib/content_analyzer.py:196-199 | the first rounds of the keyword loop collect at most three results per pattern |
| ContentAnalyzer.MethodologiesWith | implementations/intelligent-scraper/v2/lib/content_analyzer.py:201 | the result holds each collected value exactly once |
| ContentAnalyzer.SetOfLength | implementations/intelligent-scraper/v2/lib/content_analyzer.py:201 | a set has no more elements than the list it came from |
| ContentAnalyzer.MethodologiesAsWritten | implementations/intelligent-scraper/v2/lib/content_analyzer.py:179-201 | as written: the distinct values `findall` returns, group 1 for the grouped pattern |
| ContentAnalyzer.Methodologies | implementations/intelligent-scraper/v2/lib/content_analyzer.py:179-201 | as intended: the distinct keyword matches, at most three per pattern |
| ContentAnalyzer.ExtractMethodologies | implementations/intelligent-scraper/v2/lib/content_analyzer.py:196-201 | the keyword loop collects the intended methodologies |
| ContentAnalyzer.ExperimentalCollected | implementations/intelligent-scraper/v2/lib/content_analyzer.py:196-199 | on "an experimental design" the loop collects the one value the experiment pattern returns |
| ContentAnalyzer.ExperimentalGroupFinding | implementations/intelligent-scraper/v2/lib/content_analyzer.py:186-201 | as written, a paper mentioning only "experimental" is credited with the methodology "al"; with whole matches it is credited with "experimental" |
| ContentAnalyzer.NotableQuotes | implementations/intelligent-scraper/v2/lib/content_analyzer.py:203-209 | at most five quotations of 50 to 300 characters without quote marks, from the first 3000 characters |
| ContentAnalyzer.AnalyzePaper | implementations/intelligent-scraper/v2/lib/content_analyzer.py:81-112 | as intended (see Left out): the entry is keyed and titled by the paper's title, copies authors, year, citations and the full text, takes the extracted abstract, else the paper's, else '', and holds the key points, the whole-keyword methodologies and the quotes of the text |
| ContentAnalyzer.MetadataOnly | implementations/intelligent-scraper/v2/lib/content_analyzer.py:63-76 | a failed download gives the entry "paper_<idx>" with the paper's fields, empty lists, no full text and the paper's citations |
| ContentAnalyzer.Pairs | implementations/intelligent-scraper/v2/lib/content_analyzer.py:55 | `zip` pairs as many as the shorter list holds |
| ContentAnalyzer.Outcome | implementations/intelligent-scraper/v2/lib/content_analyzer.py:56-76 | the analysis when the download succeeded with a file, nothing when it succeeded without one (the error is caught), and the metadata-only entry otherwise |
| ContentAnalyzer.Titles | implementations/intelligent-scraper/v2/lib/content_analyzer.py:59-65 | one title per paper, in order |
| ContentAnalyzer.Outcomes | implementations/intelligent-scraper/v2/lib/content_analyzer.py:55-76 | one contribution per pair, in order |
| ContentAnalyzer.Analyzed | implementations/intelligent-scraper/v2/lib/content_analyzer.py:42-79 | the title-keyed result is well formed |
| ContentAnalyzer.AnalyzeAllPapers | implementations/intelligent-scraper/v2/lib/content_analyzer.py:42-79 | the loop builds the title-keyed result |
| ContentAnalyzer.AnalyzedKeys | implementations/intelligent-scraper/v2/lib/content_analyzer.py:55-76 | a title is a key exactly when some pair with that title contributed an entry |
| ContentAnalyzer.AnalyzedLastWins | implementations/intelligent-scraper/v2/lib/content_analyzer.py:59-65 | the entry for a title is the one of the last contributing pair with that title |
| Checklist.Suggestions | intelligent-scraper/v2/lib/checklist_generator.py:80-90 | for a paper not downloaded: a DOI, a publisher and a Scholar line for each field that is set, in that order, then the library advice |
| Checklist.EntryFor | intelligent-scraper/v2/lib/checklist_generator.py:67-104 | the row copies the paper's fields, numbers it `idx`, takes status and file path from the result (no path unless successful) and the sections from the tracker |
| Checklist.ChecklistGenerator.constructor | intelligent-scraper/v2/lib/checklist_generator.py:35-37 | the generator keeps the citation tracker |
| Checklist.ChecklistGenerator.CreateEntry | intelligent-scraper/v2/lib/checklist_generator.py:68-104 | one loop pass builds exactly `EntryFor` |
| Checklist.ChecklistGenerator.CreateEntries | intelligent-scraper/v2/lib/checklist_generator.py:63-108 | one row per zipped pair, numbered from 1, the shorter list deciding the count |
| Checklist.ChecklistGenerator.DownloadPrompt | intelligent-scraper/v2/lib/checklist_generator.py:225-262 | no file when every paper was downloaded; otherwise the header followed by the papers that were not, in their original order, numbered from 1 |
| Checklist.Undownloaded | intelligent-scraper/v2/lib/checklist_generator.py:237-240 | the first loop keeps exactly the papers whose result is not a success |
| Checklist.CountWhere | intelligent-scraper/v2/lib/checklist_generator.py:216-218 | a count is at most the number of entries |
| Checklist.Summarize | intelligent-scraper/v2/lib/checklist_generator.py:214-219 | the summary's total is the number of entries and each count is at most that |
| Checklist.CountWhereSplit | intelligent-scraper/v2/lib/checklist_generator.py:216-217 | complementary tests split the count |
| Checklist.SummaryCounts | intelligent-scraper/v2/lib/checklist_generator.py:212-219 | downloaded plus not-available equals the total; downloaded is the number of successful results; cited is the number of papers with a citing section |
| Checklist.FailedIndices | intelligent-scraper/v2/lib/checklist_generator.py:238-240 | the failed positions are below `n`, not successful, and ascending |
| Checklist.FailedIndicesComplete | intelligent-scraper/v2/lib/checklist_generator.py:238-240 | no failed position is missing |
| Checklist.FailedIndicesEmpty | intelligent-scraper/v2/lib/checklist_generator.py:242-244 | there are no failed positions exactly when every result is a success |
| Checklist.FailingIsPick | intelligent-scraper/v2/lib/checklist_generator.py:237-240 | the filtered list is exactly the papers at the failed positions, in order |
| Checklist.FailingEmpty | intelligent-scraper/v2/lib/checklist_generator.py:242-244 | the prompt file is skipped exactly when every zipped result is a success |
| Checklist.Numbered | intelligent-scraper/v2/lib/checklist_generator.py:255-256 | the numbered list is empty exactly when there are no papers |
| Checklist.NumberedAppend | intelligent-scraper/v2/lib/checklist_generator.py:255-256 | numbering a concatenation continues the count of the first part into the second |
| Checklist.PromptStep | intelligent-scraper/v2/lib/checklist_generator.py:255-256 | each loop pass appends one numbered line at the end |
| Checklist.NumberedLines | intelligent-scraper/v2/lib/checklist_generator.py:255-256 | the `j`-th listed paper carries the number `start + j` |
| Citations.EmptyLedger | intelligent-scraper/v2/lib/citation_tracker.py:34-42 | a fresh tracker has three empty dictionaries and satisfies the ledger invariant |
| Citations.Register | intelligent-scraper/v2/lib/citation_tracker.py:44-53 | `register_paper` is an upsert keyed by the paper id: the id is present with the new reference, other references are unchanged, both citation dictionaries are untouched |
| Citations.RegisterCount | intelligent-scraper/v2/lib/citation_tracker.py:44-53 | re-registering never creates a second entry: the count grows by one only for a new id |
| Citations.RegisterConsistent | intelligent-scraper/v2/lib/citation_tracker.py:44-53 | registering keeps the ledger invariant |
| Citations.Cite | intelligent-scraper/v2/lib/citation_tracker.py:55-66 | `add_citation` with an unregistered id changes nothing; it never changes the references |
| Citations.CiteEffect | intelligent-scraper/v2/lib/citation_tracker.py:61-66 | after citing a registered paper it occurs exactly once in the section's list, the earlier entries keep their order, the section is in the paper's set, and no other section or paper changes |
| Citations.CiteConsistent | intelligent-scraper/v2/lib/citation_tracker.py:55-66 | citing keeps the invariant: duplicate-free lists, cited papers registered, and p in section_papers[s] exactly when s in paper_sections[p] |
| Citations.CiteIdempotent | intelligent-scraper/v2/lib/citation_tracker.py:61-66 | adding the same citation twice has the effect of adding it once |
| Citations.CitedIff | intelligent-scraper/v2/lib/citation_tracker.py:55-88 | under the invariant the two views agree in both directions and every cited paper is registered |
| Citations.PaperSections | intelligent-scraper/v2/lib/citation_tracker.py:78-80 | `get_paper_sections` is sorted, duplicate-free, holds exactly the citing sections, and is empty for an unknown id |
| Citations.AllPapersRegistered | intelligent-scraper/v2/lib/citation_tracker.py:86-88 | every id `get_all_papers` returns is registered and cited, each once |
| Citations.InlineCitation | intelligent-scraper/v2/lib/citation_tracker.py:68-72 | the paper's own marker for a registered id, the fixed unknown-paper marker otherwise |
| Citations.GetStatistics | intelligent-scraper/v2/lib/citation_tracker.py:94-111 | downloaded plus metadata-only equals the total; cited papers never exceed registered ones; the per-section counts cover exactly the sections, each with its list length |
| Citations.CitedRegisteredCard | intelligent-scraper/v2/lib/citation_tracker.py:94-111 | under the invariant `cited_papers` is at most `total_papers` |
| Citations.CitationTracker.constructor | intelligent-scraper/v2/lib/citation_tracker.py:34-42 | the new tracker's state is the empty ledger |
| Citations.CitationTracker.RegisterPaper | intelligent-scraper/v2/lib/citation_tracker.py:44-53 | the tracker's new state is `Register` of the old one and the invariant holds |
| Citations.CitationTracker.AddCitation | intelligent-scraper/v2/lib/citation_tracker.py:55-66 | the tracker's new state is `Cite` of the old one and the invariant holds |
| GoogleScholarScraper.ContainsSelf | intelligent-scraper/v1/scrapers/google_scholar_scraper.py:56-60 | an exact name also contains the search name |
| GoogleScholarScraper.Confidence | intelligent-scraper/v1/scrapers/google_scholar_scraper.py:49-74 | 0.4 for the name in the author's name, 0.3 for the exact name, 0.1 for an affiliation, 0.2 for over 1000 citations or else 0.1 for over 100, capped at 1.0; an exact name scores at least 0.7 |
| GoogleScholarScraper.CalculateConfidence | intelligent-scraper/v1/scrapers/google_scholar_scraper.py:49-74 | the accumulator and the cap compute the score |
| GoogleScholarScraper.Candidates | intelligent-scraper/v1/scrapers/google_scholar_scraper.py:28-42 | one candidate per author, in order, with its fields and its score |
| GoogleScholarScraper.SearchPerson | intelligent-scraper/v1/scrapers/google_scholar_scraper.py:16-47 | the enumeration loop stops after the first ten authors |
| GoogleScholarScraper.ExtractRoundTrip | intelligent-scraper/v1/scrapers/google_scholar_scraper.py:128-142 | flattening reads every field from where the client keeps it: a record built from a flat record flattens back to it |
| GoogleScholarScraper.ExtractDefaults | intelligent-scraper/v1/scrapers/google_scholar_scraper.py:128-142 | a record with no fields flattens to the defaults, '' and 0 citations |
| GoogleScholarScraper.CollectPublications | intelligent-scraper/v1/scrapers/google_scholar_scraper.py:107-110 | the first `MAX_PAPERS` publications, flattened, in order |
| GoogleScholarScraper.CollectCoauthors | intelligent-scraper/v1/scrapers/google_scholar_scraper.py:113-120 | the first twenty coauthors, in order |
| GoogleScholarScraper.ScrapePerson | intelligent-scraper/v1/scrapers/google_scholar_scraper.py:76-126 | no scholar id or a failing lookup gives the empty result; otherwise the profile under the requested id with its metrics and the capped publications and coauthors |
| GoogleScholarScraper.GetPaperContent | intelligent-scraper/v1/scrapers/google_scholar_scraper.py:144-158 | the page text exactly when the URL is non-empty and the request came back with status 200 |
| GoogleScholarScraper.KeepMap | intelligent-scraper/v1/scrapers/google_scholar_scraper.py:167-178 | filtering then mapping gives no more records than it was given |
| GoogleScholarScraper.KeepMapSnoc | intelligent-scraper/v1/scrapers/google_scholar_scraper.py:171-178 | one more result adds its record exactly when the filter accepts it |
| GoogleScholarScraper.KeepMapAll | intelligent-scraper/v1/scrapers/google_scholar_scraper.py:171-178 | when everything is accepted, every element is mapped, in order |
| GoogleScholarScraper.KeepMapKept | intelligent-scraper/v1/scrapers/google_scholar_scraper.py:171-178 | every output comes from an accepted element |
| GoogleScholarScraper.TopicPapersUnfiltered | intelligent-scraper/v1/scrapers/google_scholar_scraper.py:172-178 | without an author filter every result is kept, flattened, in order |
| GoogleScholarScraper.TopicPapersFiltered | intelligent-scraper/v1/scrapers/google_scholar_scraper.py:172-178 | with an author filter, every kept record's author string contains the lowercased name |
| GoogleScholarScraper.AuthorMatches | intelligent-scraper/v1/scrapers/google_scholar_scraper.py:172-175 | the author check inside the topic loop |
| GoogleScholarScraper.SearchPapersByTopic | intelligent-scraper/v1/scrapers/google_scholar_scraper.py:160-183 | at most fifty results are examined and those the author filter rejects are skipped |
| GoogleScholarScraper.ExtractPublicationInfo | intelligent-scraper/v1/scrapers/google_scholar_scraper.py:128-142 | the flattened record of a publication, '' for every missing text field and 0 for missing citations; ExtractRoundTrip and ExtractDefaults state it |
| GoogleScholarScraper.TopicPapers | intelligent-scraper/v1/scrapers/google_scholar_scraper.py:171-178 | the flattened records of the publications the author filter keeps, in order; TopicPapersUnfiltered and TopicPapersFiltered state it |
| InformationScraper.Weight | implementations/intelligent_data_scraper/main.py:135-145 | a source's reliability is between 0.4 and 0.9; a source not in the table weighs 0.5 |
| InformationScraper.Weighted | implementations/intelligent_data_scraper/main.py:146 | the weighted score lies between 0.4 and 0.9 times the score |
| InformationScraper.Group | implementations/intelligent_data_scraper/main.py:119-124 | a source's group holds only candidates of that source, from the input |
| InformationScraper.Scored | implementations/intelligent_data_scraper/main.py:127-146 | every candidate gets its combined confidence written in and nothing else changes |
| InformationScraper.GroupStep | implementations/intelligent_data_scraper/main.py:120-124 | one more candidate joins its own source's group |
| InformationScraper.GroupHas | implementations/intelligent_data_scraper/main.py:127-132 | a candidate is in its own source's group, so the average never divides by zero |
| InformationScraper.SumScores | implementations/intelligent_data_scraper/main.py:132 | the generator sums the group's confidences |
| InformationScraper.GroupBySource | implementations/intelligent_data_scraper/main.py:119-124 | the dict maps each source seen, and only those, to its candidates in order |
| InformationScraper.CombinedConfidence | implementations/intelligent_data_scraper/main.py:127-146 | the loop body computes a candidate's combined confidence |
| InformationScraper.RankCandidates | implementations/intelligent_data_scraper/main.py:116-149 | group by source, write every combined confidence, then sort |
| InformationScraper.RankedPermutation | implementations/intelligent_data_scraper/main.py:149 | ranking keeps exactly the scored candidates, largest combined confidence first |
| InformationScraper.RankedStable | implementations/intelligent_data_scraper/main.py:149 | candidates with equal combined confidence keep their search order |
| InformationScraper.ScoredKeepsFields | implementations/intelligent_data_scraper/main.py:146 | scoring changes nothing but the combined confidence |
| InformationScraper.CombinedBound | implementations/intelligent_data_scraper/main.py:132-146 | confidences of at most 1.0 give a combined confidence between 0 and 1.0 |
| InformationScraper.WeightedBound | implementations/intelligent_data_scraper/main.py:145-146 | a bounded score stays bounded after weighting |
| InformationScraper.MeanBound | implementations/intelligent_data_scraper/main.py:132 | the group average is at most the largest confidence |
| InformationScraper.SameSourceOrder | implementations/intelligent_data_scraper/main.py:132-146 | within one source a higher confidence never ranks lower, the group average being shared |
| InformationScraper.SelectPerson | implementations/intelligent_data_scraper/main.py:151-186 | None exactly for no candidates; otherwise the first candidate, auto-selected exactly when its combined confidence is above 0.5 |
| InformationScraper.SelectedIsBest | implementations/intelligent_data_scraper/main.py:151-186 | after ranking, the selected person has the largest combined confidence of all |
| InformationScraper.Grouped | implementations/intelligent_data_scraper/main.py:244-256 | the dict built from the cached rows is well formed |
| InformationScraper.ContentsOfType | implementations/intelligent_data_scraper/main.py:249-254 | the contents of one data type's rows, in order |
| InformationScraper.GroupedContents | implementations/intelligent_data_scraper/main.py:244-256 | each data type maps to the contents of its rows, in row order, and a type is a key exactly when some row has it |
| InformationScraper.GroupedOrder | implementations/intelligent_data_scraper/main.py:250-252 | the keys come in the order their data type first appears |
| InformationScraper.GroupedStep | implementations/intelligent_data_scraper/main.py:247-254 | one more row appends its content under its type |
| InformationScraper.AddContent | implementations/intelligent_data_scraper/main.py:250-254 | a new data type starts with an empty list, then the content is appended |
| InformationScraper.ProcessCachedData | implementations/intelligent_data_scraper/main.py:244-256 | the row loop builds the grouped dict |
| InformationScraper.ListStrings | implementations/intelligent_data_scraper/main.py:261-264 | only the string items of a list are stored |
| InformationScraper.RowsOf | implementations/intelligent_data_scraper/main.py:259-268 | one row per string of an item, under the item's key |
| InformationScraper.StoredFrom | implementations/intelligent_data_scraper/main.py:258-270 | every stored row is a string of the data under its own key |
| InformationScraper.CacheEntry | implementations/intelligent_data_scraper/main.py:260-268 | the inner loop for one item stores its rows |
| InformationScraper.CacheScrapedData | implementations/intelligent_data_scraper/main.py:258-270 | the `store_scraped_data` calls store exactly the rows of the data, item by item |
| InformationScraper.AsCached | implementations/intelligent_data_scraper/main.py:244-248 | stored rows come back with type and content present |
| InformationScraper.AsCachedAppend | implementations/intelligent_data_scraper/main.py:244-248 | reading back distributes over concatenation |
| InformationScraper.ContentsOfAppend | implementations/intelligent_data_scraper/main.py:249-254 | the contents of one type distribute over concatenation |
| InformationScraper.ContentsOfRows | implementations/intelligent_data_scraper/main.py:259-268 | the rows of one item hold its strings under its key and nothing under another |
| InformationScraper.CacheRoundTrip | implementations/intelligent_data_scraper/main.py:244-270 | caching and reading back: with distinct keys, the grouped rows give each key exactly the strings of its value |
| InformationScraper.StoredContents | implementations/intelligent_data_scraper/main.py:258-270 | the stored rows of a key are the strings of its value |
| InformationScraper.NoneStored | implementations/intelligent_data_scraper/main.py:258-270 | a key not in the data stores nothing |
| InformationScraper.ExtractTextSamples | implementations/intelligent_data_scraper/main.py:304-328 | the samples are those of the five source and field pairs, in order: a list's items or a string |
| InformationScraper.SamplesReadOnly | implementations/intelligent_data_scraper/main.py:304-328 | only the five pairs are read: dicts agreeing on them give the same samples |
| InformationScraper.NoSamples | implementations/intelligent_data_scraper/main.py:304-328 | without any of the five pairs there is no sample |
| InformationScraper.WikiTitle | implementations/intelligent_data_scraper/main.py:232-242 | a title exactly when the URL contains "/wiki/"; it has no '_' |
| InformationScraper.WikiTitleLast | implementations/intelligent_data_scraper/main.py:237-238 | the title is the text after the last "/wiki/", '_' read as ' ' |
| InformationScraper.SourceOf | implementations/intelligent_data_scraper/main.py:121 | `candidate.get('source', 'unknown')` |
| InformationScraper.ScoreOf | implementations/intelligent_data_scraper/main.py:132 | `candidate.get('confidence_score', 0)` |
| InformationScraper.Mean | implementations/intelligent_data_scraper/main.py:132 | the average confidence of a source group, floored; MeanBound states its bound |
| InformationScraper.Combined | implementations/intelligent_data_scraper/main.py:127-146 | the combined confidence, confidence times the source weight plus a tenth of the group average, in thousandths; CombinedConfidence computes it and CombinedBound bounds it |
| InformationScraper.Ranked | implementations/intelligent_data_scraper/main.py:116-149 | the scored candidates stably sorted by combined confidence, largest first; RankedPermutation and RankedStable state it |
| InformationScraper.StringsOf | implementations/intelligent_data_scraper/main.py:261-265 | the strings stored for one value: those of a list, a string itself, nothing for anything else |
| InformationScraper.Stored | implementations/intelligent_data_scraper/main.py:258-270 | the `(data_type, content)` rows stored for a scraped dict, in item order; StoredContents and CacheRoundTrip state it |
| InformationScraper.Samples | implementations/intelligent_data_scraper/main.py:304-328 | the text samples of the listed `(source, field)` pairs: a list's elements, a string, or nothing; ExtractTextSamples computes it |
| Quotes.Quoted | implementations/intelligent_data_scraper/scrapers/wikipedia_scraper.py:209-211 | every quotation found has between the bounds of characters, no quote mark, and stands between two quotes of the text |
| Quotes.QuotedRoundTrip | implementations/intelligent-scraper/v2/lib/content_analyzer.py:206 | quoting a quote-free text of admissible length and scanning it gives that text alone |
| Quotes.NoQuoteNoQuoted | implementations/intelligent-scraper/v2/lib/content_analyzer.py:206 | a text without a quote mark holds no quotation |
| Dedup.FirstPerKeyFacts | implementations/intelligent_data_scraper/scrapers/news_scraper.py:149-160 | keeping the first element per non-empty key gives a subsequence with non-empty, distinct keys that represents every non-empty key of the input |
| Dedup.DedupSnoc | implementations/intelligent-scraper/v2/lib/person_searcher.py:149-166 | one more element is kept exactly when its key is non-empty and not seen or kept before |
| Sorting.SortDesc | implementations/intelligent_data_scraper/main.py:149 | `sorted(..., reverse=True)`: a permutation in non-increasing key order |
| Sorting.SortDescStable | implementations/intelligent_data_scraper/main.py:149 | among records with the same key the sorted output keeps the input order |
| Text.Lower | implementations/intelligent_data_scraper/scrapers/news_scraper.py:129-130 | lowercasing keeps the length and lowers each character |
| Text.Split | implementations/intelligent-scraper/v2/lib/person_searcher.py:382 | the pieces joined by the separator give the string back |
| Text.SplitPiecesFree | implementations/intelligent-scraper/v2/lib/person_searcher.py:382 | no piece contains the separator |
| Text.SplitMany | implementations/deployments/intelligent-scraper-v3-render-deployment/server.py:50-51 | there are at least two pieces exactly when the separator occurs |
| Text.Strip | implementations/intelligent-scraper/v2/lib/person_searcher.py:382 | the strip is the slice without leading and trailing whitespace |
| Text.Words | implementations/intelligent_data_scraper/scrapers/base_scraper.py:74 | `split()` gives the maximal non-whitespace runs, in order |
| Text.CollapseShape | implementations/intelligent_data_scraper/scrapers/base_scraper.py:74 | the collapse leaves single plain spaces between words and none in front |
| Text.DigitsValueOfNat | implementations/intelligent-scraper/v2/lib/content_analyzer.py:66 | `str(n)` reads back as `n` |
| Text.SortedSet | intelligent-scraper/v2/lib/citation_tracker.py:80 | `sorted` of a set of strings lists each element once, in ascending order |
| Text.IsSpace | implementations/intelligent_data_scraper/scrapers/base_scraper.py:74 | the characters `str.isspace()` accepts, which are also the ones `split()` cuts at; Words and CollapseShape rely on it |
| Text.IsDigits | implementations/deployments/intelligent-scraper-v3-render-deployment/server.py:51 | `isdigit()` on ASCII digits: non-empty and every character a digit; AuthorIdShape uses it |
| Text.Find | implementations/intelligent-scraper/v2/lib/report_generator.py:282 | `s.find(p, from)`: its ensures give the found index as an occurrence with none earlier, and -1 exactly when there is none |
| Text.Contains | implementations/intelligent-scraper/v2/lib/report_generator.py:282 | `p in s`, read through Find; ContainsIff states that it holds exactly when `p` occurs at some index |
| Text.Take | implementations/intelligent-scraper/v2/lib/report_generator.py:163 | `s[:n]`: the first `min(n, len(s))` elements |
| Text.Join | implementations/intelligent_data_scraper/processors/publications_enricher.py:62 | `sep.join(parts)`; SplitJoin and JoinSplitSep state that splitting at the separator gives the parts back |
| Text.SplitFrom | implementations/intelligent-scraper/v2/lib/person_searcher.py:382 | `s[from:].split(sep)`: at least one piece, and joining the pieces with `sep` gives the slice back |
| Text.Replace | implementations/intelligent_data_scraper/scrapers/base_scraper.py:87 | `s.replace(old, new)`, left to right and non-overlapping; ReplaceAbsent states that no occurrence means no change |
| Text.Collapse | implementations/intelligent_data_scraper/scrapers/base_scraper.py:74 | `' '.join(s.split())`; CollapseShape states the result has single plain spaces between the words and none at either end |
| Text.NatToString | implementations/intelligent-scraper/v2/lib/content_analyzer.py:66 | `str(n)` for `n >= 0`: a non-empty string of digits; DigitsValueOfNat states that it reads back as `n` |
| Text.DigitsValue | implementations/intelligent-scraper/v2/lib/content_analyzer.py:66 | `int(d)` for a digit string, the reading DigitsValueOfNat inverts |
| Text.IntToString | implementations/intelligent-scraper/v2/lib/content_analyzer.py:66 | `str(i)` for any integer: the digits of `abs(i)`, with a '-' in front when `i < 0` |
| Text.StrLeq | intelligent-scraper/v2/lib/citation_tracker.py:80 | Python's `<=` on str; StrLeqReflexive, StrLeqAntisymmetric, StrLeqTransitive and StrLeqTotal state that it is a total order |
| Dedup.FirstPerKey | implementations/intelligent_data_scraper/scrapers/news_scraper.py:149-160 | the elements whose non-empty key has not been seen before, in order; FirstPerKeyFacts and DedupSnoc state its properties |
| Sorting.InsertDesc | implementations/intelligent_data_scraper/main.py:149 | one element put in front of the first element with a key no larger; its ensures give a permutation, and InsertDescSorted and InsertDescWithKey state that it keeps the order sorted and keeps ties in input order |
| Quotes.QuotedFrom | implementations/intelligent-scraper/v2/lib/content_analyzer.py:206 | `re.findall(r'"([^"]{lo,hi})"', s[i:])`: its ensures bound each match's length and exclude quote marks; QuotedFromOccurs states that every match stands between two quotes |
| OrderedMaps.Put | implementations/intelligent_data_scraper/processors/publications_enricher.py:128-129 | `d[k] = v` on an insertion-ordered dict: a new key goes last, an existing key keeps its place, and `d[k]` is `v` afterwards |
| OrderedMaps.Get | implementations/intelligent_data_scraper/processors/publications_enricher.py:134 | `d.get(k, default)` |
| OrderedMaps.Items | implementations/intelligent_data_scraper/processors/publications_enricher.py:136 | `d.items()` in key order: one pair per key, and ItemsMember states that each pair is a key with its value |
| OrderedMaps.PutSome | implementations/intelligent-scraper/v2/lib/content_analyzer.py:59-65 | the dict after one write per present value; PutSomeKeys, PutSomeLast and PutSomeOrder state which keys it has, that the last write wins, and that keys keep the place of their first write |
| Markup.ReplaceChar | implementations/intelligent_data_scraper/processors/pdf_generator.py:632 | `s.replace(c, rep)` for one character; ReplaceCharAppend, ReplaceCharAbsent and ReplaceCharRemoves state its properties |
| Markup.EscapeEach | implementations/intelligent_data_scraper/processors/pdf_generator.py:632 | the character-by-character escaping that EscapeChain proves the three chained replacements equal to |
| Markup.Unescape | implementations/intelligent_data_scraper/processors/pdf_generator.py:632 | reading the entities back, the inverse that UnescapeEscapeEach states escaping has |
| Markup.BoldFrom | implementations/intelligent_data_scraper/processors/pdf_generator.py:614 | `re.sub(r'\*\*(.*?)\*\*', r'<b>\1</b>', ...)`, with the closing `**` found by BoldClose; BoldSpan and BoldPlain state what it does on one span and on plain text |
| Markup.ItalicFrom | implementations/intelligent_data_scraper/processors/pdf_generator.py:617 | `re.sub(r'\*(.*?)\*', r'<i>\1</i>', ...)`, with the closing star found by ItalicClose; ItalicPlain states that plain text passes through |
| Markup.HeaderFrom | implementations/intelligent_data_scraper/processors/pdf_generator.py:620 | `re.sub(r'^#+\s*(.*)$', r'<b>\1</b>', ..., flags=re.MULTILINE)`: a line-start `#` run and the whitespace after it are dropped and the rest of the line is put in bold; HeaderPlain states that text without `#` passes through |
| Provider.Ask | implementations/intelligent-scraper/v2/lib/report_generator.py:385 | one `generate_content` call: the service's reply and the call log with this call appended; AskRecords states its effect |
| Provider.Chunks | implementations/intelligent-scraper/v2/lib/report_generator.py:393-400 | `_split_prompt`: the slices of `chunk_size` characters; ChunksFacts states that they join back to the text |
| Provider.ChunksFrom | implementations/intelligent-scraper/v2/lib/report_generator.py:395-399 | the slices from index `i` on; ChunksFromFacts states their sizes and that they join back to `text[i:]` |
| Provider.Concat | implementations/intelligent-scraper/v2/lib/report_generator.py:393-400 | `''.join(parts)` |
| Provider.AskAll | implementations/intelligent-scraper/v2/lib/report_generator.py:384-386 | the map phase: one call per chunk in order, and the first exception raised ends it; AskAllFacts and AnsweredPhase state its outcome |
| Provider.ChunkAnswers | implementations/intelligent-scraper/v1/processors/content_synthesizer.py:321-324 | the answers the service gives to the calls on the chunks, in chunk order; its ensures keep one answer per chunk, and AnsweredPhase ties them to the phase's result |
| Provider.TextOf | implementations/intelligent-scraper/v2/lib/report_generator.py:402-423 | `_extract_text` of an answered call: the reply's text; ReplyResult ties it to the outcome |
| Provider.IsQuota | implementations/intelligent-scraper/v2/lib/report_generator.py:306 | the `except api_exceptions.ResourceExhausted` test: the exception's type is the quota error |
| Markup.ReplaceCharAppend | implementations/intelligent_data_scraper/processors/pdf_generator.py:632 | replacing a character distributes over concatenation |
| Markup.ReplaceCharAbsent | implementations/intelligent_data_scraper/processors/pdf_generator.py:632 | nothing to replace leaves the string as it is |
| Markup.ReplaceCharRemoves | implementations/intelligent_data_scraper/processors/pdf_generator.py:632 | no replaced character is left when the replacement has none |
| Markup.ReplaceCharKeepsOut | implementations/intelligent_data_scraper/processors/pdf_generator.py:632 | a character in neither the string nor the replacement is not in the result |
| Markup.EscapeHtml | implementations/intelligent_data_scraper/processors/pdf_generator.py:630-632 | the escaped text has neither '<' nor '>', and reading the three entities back gives the input |
| Markup.ReplaceCharOne | implementations/intelligent_data_scraper/processors/pdf_generator.py:632 | replacing in a one-character string |
| Markup.EscapeCharChain | implementations/intelligent_data_scraper/processors/pdf_generator.py:632 | the three replacements in order escape one character |
| Markup.EscapeChain | implementations/intelligent_data_scraper/processors/pdf_generator.py:632 | the three replacements in order escape each character on its own ('&' first, so no entity is escaped twice) |
| Markup.EscapeEachNoAngles | implementations/intelligent_data_scraper/processors/pdf_generator.py:632 | escaped text has no angle brackets |
| Markup.UnescapeEscapeEach | implementations/intelligent_data_scraper/processors/pdf_generator.py:632 | unescaping escaped text gives it back |
| Markup.UnescapeOne | implementations/intelligent_data_scraper/processors/pdf_generator.py:632 | an escaped character followed by text reads back as the character and the text |
| Markup.BoldClose | implementations/intelligent_data_scraper/processors/pdf_generator.py:614 | the first `**` on the same line that closes a bold span |
| Markup.ItalicClose | implementations/intelligent_data_scraper/processors/pdf_generator.py:617 | the first `*` on the same line that closes an italic span |
| Markup.RunOf | implementations/intelligent_data_scraper/processors/pdf_generator.py:620 | the run of one character starting at a position |
| Markup.SpaceRun | implementations/intelligent_data_scraper/processors/pdf_generator.py:620 | the whitespace run starting at a position, newlines included |
| Markup.LineEnd | implementations/intelligent_data_scraper/processors/pdf_generator.py:620 | the first newline at or after a position, or the end |
| Markup.DropStars | implementations/intelligent_data_scraper/processors/pdf_generator.py:623 | every `**` is dropped left to right and no two stars are left side by side |
| Markup.ConvertMarkdown | implementations/intelligent_data_scraper/processors/pdf_generator.py:606-628 | the converted text has no newline and no `**` |
| Markup.ReplaceCharHead | implementations/intelligent_data_scraper/processors/pdf_generator.py:626 | the first character after a replacement |
| Markup.BreakKeepsSingleStars | implementations/intelligent_data_scraper/processors/pdf_generator.py:626 | turning newlines into `<br/>` brings no two stars together |
| Markup.ConvertPlain | implementations/intelligent_data_scraper/processors/pdf_generator.py:606-628 | one line of text without markup characters comes out unchanged |
| Markup.BoldSpan | implementations/intelligent_data_scraper/processors/pdf_generator.py:614 | `**w**` on one line with no star inside becomes `<b>w</b>` |
| WikipediaScraper.Birth | implementations/intelligent_data_scraper/scrapers/wikipedia_scraper.py:159-174 | birth date and place, stripped, from the first birth pattern that matches, the last pattern giving only a date; BirthFacts states it |
| WikipediaScraper.Occupation | implementations/intelligent_data_scraper/scrapers/wikipedia_scraper.py:186 | the occupation candidate is the stripped first group |
| WikipediaScraper.Qualifies | implementations/intelligent_data_scraper/scrapers/wikipedia_scraper.py:183-188 | an occupation pattern counts when it matches and its stripped group is longer than 10 and shorter than 100 characters |
| WikipediaScraper.Education | implementations/intelligent_data_scraper/scrapers/wikipedia_scraper.py:191-206 | education from the first education pattern that matches, two groups joined by " from " unstripped, one group stripped |
| WikipediaScraper.StructuredInfoOf | implementations/intelligent_data_scraper/scrapers/wikipedia_scraper.py:147-213 | `_extract_structured_info`: birth, occupation, education, no awards or works, and the first five quotes; ExtractStructuredInfo computes it and StructuredInfoDefaults states its defaults |
| UniversityScraper.DdgCandidate | implementations/intelligent_data_scraper/scrapers/university_scraper.py:55-72 | one DuckDuckGo link's candidate: the stripped title, the redirect target, the snippet cut at 240 characters, the domain and the confidence |
| UniversityScraper.BingFallbacks | implementations/intelligent_data_scraper/scrapers/university_scraper.py:31-34 | the domains, in order, whose DuckDuckGo search came back empty; BingOnlyAfterEmpty states that only these are searched on Bing |
| UniversityScraper.InterestsOf | implementations/intelligent_data_scraper/scrapers/university_scraper.py:199-209 | the research interests from the first research element found, or none; Interests states their limits |
| NewsScraper.CandidateOf | implementations/intelligent_data_scraper/scrapers/news_scraper.py:55-72 | the candidate of a titled card: the stripped title, link, source, time and confidence |
| NewsScraper.SourcesOf | implementations/intelligent_data_scraper/scrapers/news_scraper.py:189 | the set of non-empty article sources |
| Citations.FormatCitation | intelligent-scraper/v2/lib/citation_tracker.py:23-28 | the inline marker `[From: title, authors year]`, with " - metadata only" before the bracket for a paper not downloaded; Reports.FormatCitationScans reads it back |
| PublicationsEnricher.NormTitle | implementations/intelligent_data_scraper/processors/publications_enricher.py:121-122 | `(t or "").strip().lower()`, raising for a truthy non-string |
| PublicationsEnricher.MergeKey | implementations/intelligent_data_scraper/processors/publications_enricher.py:125 | the DOI when truthy, else the normalised title; a list DOI raises, and an empty key skips the record |
| PublicationsEnricher.Merge | implementations/intelligent_data_scraper/processors/publications_enricher.py:118-136 | `_merge_publications`; MergePublications, MergeKeysFirstOccurrence and FillMissing state it |
| PublicationsEnricher.AuthorsText | implementations/intelligent_data_scraper/processors/publications_enricher.py:148 | `(p.get('authors') or '').lower()`, raising for a truthy non-string |
| PublicationsEnricher.AuthorFilter | implementations/intelligent_data_scraper/processors/publications_enricher.py:146-160 | the records whose lowercased authors contain the target, in order, or the first record's error; AuthorFilterSubsequence and AuthorFilterComplete state it |
| PublicationsEnricher.AuthorFilterComplete | implementations/intelligent_data_scraper/processors/publications_enricher.py:146-160 | when the filter succeeds every record could be read, and each record whose authors contain the target is kept as often as it occurs |
| PublicationsEnricher.AuthorFilterOk | implementations/intelligent_data_scraper/processors/publications_enricher.py:146-160 | the filter raises only when some record's authors cannot be read |
| PublicationsEnricher.CrossrefYear | implementations/intelligent_data_scraper/processors/publications_enricher.py:55-59 | the first print date part, else the first online date part, else None, raising when the first date part is empty |
| PublicationsEnricher.CrossrefRecord | implementations/intelligent_data_scraper/processors/publications_enricher.py:53-75 | the record of one Crossref item: first title, ", "-joined author names, year or "", first container title, no abstract, 0 citations, and its URL, DOI and publisher |
| PublicationsEnricher.S2Record | implementations/intelligent_data_scraper/processors/publications_enricher.py:96-113 | the record of one Semantic Scholar paper: title, ", "-joined author names, year, venue, abstract, citations, URL, open-access PDF URL and DOI |
| ContentAnalyzer.AnalyzePair | implementations/intelligent-scraper/v2/lib/content_analyzer.py:56-76 | one pass of the loop: pair `idx` enters the dict built from the pairs before it, as the fold over the outcomes says |
| NewsScraper.Confidence | implementations/intelligent_data_scraper/scrapers/news_scraper.py:126-147 | the lowercased name in the title gives 0.6, equality 0.4 more, any interview keyword 0.1 more, capped at 1.0; the score is the maximum exactly when the lowercased title equals the name |
| NewsScraper.ContainsSelf | implementations/intelligent_data_scraper/scrapers/news_scraper.py:133-137 | equality implies containment, so an exact title always scores the 0.6 as well |
| NewsScraper.CalculateConfidence | implementations/intelligent_data_scraper/scrapers/news_scraper.py:126-147 | the accumulator loop, leaving the keyword loop at its first hit, computes the score |
| NewsScraper.CardCandidates | implementations/intelligent_data_scraper/scrapers/news_scraper.py:50-73 | one candidate per card that has a title element, in page order, each scored by its title |
| NewsScraper.SearchListing | implementations/intelligent_data_scraper/scrapers/news_scraper.py:38-78 | a failed request gives no candidates; otherwise at most the first twenty article elements are read |
| NewsScraper.DeduplicateCandidates | implementations/intelligent_data_scraper/scrapers/news_scraper.py:149-160 | the seen-set loop keeps exactly the first candidate of each non-empty URL |
| NewsScraper.KeySetSnoc | implementations/intelligent_data_scraper/scrapers/news_scraper.py:156-158 | appending a candidate adds its URL to the seen set |
| NewsScraper.SearchPersonRanked | implementations/intelligent_data_scraper/scrapers/news_scraper.py:16-36 | the results are the de-duplicated Google then Bing hits (NewsAPI adds none) sorted by score, highest first, stable among equal scores, and a permutation of them |
| NewsScraper.SearchPersonUrls | implementations/intelligent_data_scraper/scrapers/news_scraper.py:16-36 | the results' URLs are non-empty and pairwise distinct, and there are at most forty results |
| NewsScraper.UniqueUrls | implementations/intelligent_data_scraper/scrapers/news_scraper.py:149-160 | de-duplication leaves non-empty, distinct URLs and no more candidates than it was given |
| NewsScraper.SubsequenceLength | implementations/intelligent_data_scraper/scrapers/news_scraper.py:154-158 | a subsequence is no longer than its source |
| NewsScraper.PermutedUrls | implementations/intelligent_data_scraper/scrapers/news_scraper.py:36 | sorting a list with non-empty, distinct URLs keeps them non-empty and distinct |
| NewsScraper.FirstFound | implementations/intelligent_data_scraper/scrapers/news_scraper.py:219-224 | the text of the first content selector that finds an element; none exactly when no selector does |
| NewsScraper.Truncated | implementations/intelligent_data_scraper/scrapers/news_scraper.py:236-237 | content over the length limit is cut to the limit and marked "..."; shorter content is unchanged |
| NewsScraper.ArticleContent | implementations/intelligent_data_scraper/scrapers/news_scraper.py:192-244 | no URL or no response gives None; the text of the first content selector, or of the body when that is missing or empty; empty text gives None; otherwise the cleaned text, truncated |
| NewsScraper.ArticlesOf | implementations/intelligent_data_scraper/scrapers/news_scraper.py:169-181 | the articles of the results whose content came back non-empty, in result order, each carrying that content |
| NewsScraper.ArticlesOfSnoc | implementations/intelligent_data_scraper/scrapers/news_scraper.py:169-181 | the loop over one more result appends at most that result's article |
| NewsScraper.ScrapePerson | implementations/intelligent_data_scraper/scrapers/news_scraper.py:162-190 | the first `MAX_ARTICLES` results are fetched, each non-empty body becomes an article, the total is their count and the sources are the distinct non-empty sources; the identical copy is implementations/intelligent-scraper/v1/scrapers/news_scraper.py:162-190 |
| PaperDownloader.RemoveSpecial | implementations/intelligent_data_scraper/processors/paper_downloader.py:176 | the result is no longer than the input and holds only word characters, whitespace and '-', and an input made only of those is unchanged; RemoveSpecialChar and RemoveSpecialAppend state that each such character is kept, in order, and every other one removed |
| PaperDownloader.SpaceRun | implementations/intelligent_data_scraper/processors/paper_downloader.py:179 | the length of the whitespace run at the start of a string |
| PaperDownloader.UnderscoreRuns | implementations/intelligent_data_scraper/processors/paper_downloader.py:179 | no whitespace is left, the result is no longer than the input, and an input without whitespace is unchanged; UnderscoreRunsWords states that each maximal whitespace run becomes exactly one '_' |
| PaperDownloader.SafeFilename | implementations/intelligent_data_scraper/processors/paper_downloader.py:171-184 | a safe name has at most 50 characters, each a word character or '-' |
| PaperDownloader.SafeFilenameKeepsSafe | implementations/intelligent_data_scraper/processors/paper_downloader.py:171-184 | a name of file-name characters and at most 50 long is its own safe name |
| PaperDownloader.SafeFilenameIdempotent | implementations/intelligent_data_scraper/processors/paper_downloader.py:171-184 | making a name safe twice changes nothing more |
| PaperDownloader.DigitsEnd | implementations/intelligent_data_scraper/processors/paper_downloader.py:167 | the end of the digit run starting at a position |
| PaperDownloader.DigitsEndShift | implementations/intelligent_data_scraper/processors/paper_downloader.py:167 | digit runs do not look left of where they start |
| PaperDownloader.IdAtEnd | implementations/intelligent_data_scraper/processors/paper_downloader.py:167 | a well-formed identifier at the end of a string is matched whole |
| PaperDownloader.IdAtRuns | implementations/intelligent_data_scraper/processors/paper_downloader.py:167 | the match runs to the end of the string when its digit runs do |
| PaperDownloader.ArxivIdOfAbsUrl | implementations/intelligent_data_scraper/processors/paper_downloader.py:164-169 | the identifier of the canonical `arxiv.org/abs/` URL is found again |
| PaperDownloader.SearchFindsId | implementations/intelligent_data_scraper/processors/paper_downloader.py:164-169 | what the search finds always has the identifier shape digits.digits with an optional version |
| PaperDownloader.MatchIsId | implementations/intelligent_data_scraper/processors/paper_downloader.py:167 | a match has the identifier shape |
| PaperDownloader.SliceIsId | implementations/intelligent_data_scraper/processors/paper_downloader.py:167 | the slice covered by the digit runs has the identifier shape |
| PaperDownloader.IdShape | implementations/intelligent_data_scraper/processors/paper_downloader.py:167 | digit runs with a '.' between them, and an optional `v` run, make an identifier |
| PaperDownloader.PrefixDigitsEnd | implementations/intelligent_data_scraper/processors/paper_downloader.py:167 | digit runs inside a slice end where they end in the whole string, or at the slice end |
| PaperDownloader.When | implementations/intelligent_data_scraper/processors/paper_downloader.py:145-160 | a guarded append adds one element exactly when its guard holds |
| PaperDownloader.GeneratePdfUrls | implementations/intelligent_data_scraper/processors/paper_downloader.py:135-162 | the arXiv PDF link when the URL mentions arxiv and has an identifier, the ResearchGate download link, the Academia.edu download link, then the DOI link, each exactly when its condition holds |
| PaperDownloader.CandidateUrls | implementations/intelligent_data_scraper/processors/paper_downloader.py:82-86 | the PDF URL, the URL (each when non-empty), then the generated ones |
| PaperDownloader.DownloadPdfContent | implementations/intelligent_data_scraper/processors/paper_downloader.py:111-133 | the body exactly when the request succeeded, the content type mentions pdf or the URL ends in .pdf, and the body starts with the PDF signature |
| PaperDownloader.FirstPdfFrom | implementations/intelligent_data_scraper/processors/paper_downloader.py:88-102 | the first candidate that delivers a PDF, with none before it delivering one |
| PaperDownloader.InitialInfo | implementations/intelligent_data_scraper/processors/paper_downloader.py:62-78 | the record before any download: the title or "Paper <n>", the paper's fields, no content, status failed, and the safe title |
| PaperDownloader.DownloadSinglePaper | implementations/intelligent_data_scraper/processors/paper_downloader.py:59-109 | the candidate URLs are tried in order until one delivers a PDF, then the abstract fallback applies |
| PaperDownloader.TryCandidates | implementations/intelligent_data_scraper/processors/paper_downloader.py:88-107 | the URL loop and the fallback after it compute the outcome |
| PaperDownloader.OutcomeStatus | implementations/intelligent_data_scraper/processors/paper_downloader.py:88-109 | 'success' exactly when some candidate delivered a PDF, and then the content is the body of the candidate URL recorded; 'abstract_only' only with an abstract; no content exactly when 'failed'; title and safe title unchanged |
| PaperDownloader.OutcomeFallback | implementations/intelligent_data_scraper/processors/paper_downloader.py:105-107 | without a PDF, the abstract decides between 'abstract_only' and 'failed' |
| PaperDownloader.Pad2 | implementations/intelligent_data_scraper/processors/paper_downloader.py:44 | a zero-padded index has at least two digits |
| PaperDownloader.NatDigits | implementations/intelligent_data_scraper/processors/paper_downloader.py:44 | a decimal numeral is made of digits, with at least two from 10 on |
| PaperDownloader.Pad2Value | implementations/intelligent_data_scraper/processors/paper_downloader.py:44 | the padded index reads back as the index |
| PaperDownloader.EntryNames | implementations/intelligent_data_scraper/processors/paper_downloader.py:43-50 | the entries for the `n`-th paper: its numbered PDF when it has content, then always its metadata file |
| PaperDownloader.ZipNames | implementations/intelligent_data_scraper/processors/paper_downloader.py:36-50 | the first `k` papers write between `k` and `2k` entries |
| PaperDownloader.WriteEntries | implementations/intelligent_data_scraper/processors/paper_downloader.py:43-50 | one paper's writes append its entries |
| PaperDownloader.DownloadPapers | implementations/intelligent_data_scraper/processors/paper_downloader.py:23-57 | the ZIP gets the entries paper by paper, numbered from 1 |
| PaperDownloader.SourceOf | implementations/intelligent_data_scraper/processors/paper_downloader.py:238-249 | the bucket is given by the first rule that holds for the lowercased URL: arxiv, researchgate, academia.edu, a publisher name, else unknown |
| PaperDownloader.InBucket | implementations/intelligent_data_scraper/processors/paper_downloader.py:237-249 | the papers a bucket receives, in input order |
| PaperDownloader.AddTo | implementations/intelligent_data_scraper/processors/paper_downloader.py:240-249 | appending to one bucket leaves the others unchanged |
| PaperDownloader.Classified | implementations/intelligent_data_scraper/processors/paper_downloader.py:227-251 | the buckets filled from a list hold what the classifier puts there |
| PaperDownloader.GetPaperSources | implementations/intelligent_data_scraper/processors/paper_downloader.py:227-251 | every bucket holds exactly the papers classified into it, in input order |
| PaperDownloader.ClassifiedSnoc | implementations/intelligent_data_scraper/processors/paper_downloader.py:237-249 | one more paper is appended to its own bucket |
| PaperDownloader.BucketsPartition | implementations/intelligent_data_scraper/processors/paper_downloader.py:237-249 | the buckets hold between them every paper exactly as often as the input does |
| PaperDownloader.BucketsCount | implementations/intelligent_data_scraper/processors/paper_downloader.py:237-249 | the bucket sizes add up to the number of papers |
| PaperDownloader.Rate | implementations/intelligent_data_scraper/processors/paper_downloader.py:258-264 | each success rate is at most 100 percent |
| PaperDownloader.Estimated | implementations/intelligent_data_scraper/processors/paper_downloader.py:271 | `int(count * rate)` is the floor of the exact product and at most the count |
| PaperDownloader.Reported | implementations/intelligent_data_scraper/processors/paper_downloader.py:269-272 | an estimate only for non-empty buckets |
| PaperDownloader.EstimateDownloadSuccess | implementations/intelligent_data_scraper/processors/paper_downloader.py:253-277 | the total papers, the per-source estimates of the non-empty buckets, and their sum as the estimated total |
| PaperDownloader.ReportedSound | implementations/intelligent_data_scraper/processors/paper_downloader.py:269-272 | every reported source is a non-empty bucket with its own estimate |
| PaperDownloader.ReportedComplete | implementations/intelligent_data_scraper/processors/paper_downloader.py:269-272 | every non-empty bucket is reported |
| PaperDownloader.ReportedDistinct | implementations/intelligent_data_scraper/processors/paper_downloader.py:269-272 | no source is reported twice |
| PaperDownloader.ReportedFacts | implementations/intelligent_data_scraper/processors/paper_downloader.py:266-275 | the estimates are the non-empty buckets, each once, in dict order, with their own estimates |
| PaperDownloader.TotalBounded | implementations/intelligent_data_scraper/processors/paper_downloader.py:274-275 | the estimated total never exceeds the number of papers |
| PaperDownloader.IsWordChar | implementations/intelligent_data_scraper/processors/paper_downloader.py:176 | what `\w` matches, on the ASCII range: letters, digits and '_' (see Left out) |
| PaperDownloader.RemoveSpecialChar | implementations/intelligent_data_scraper/processors/paper_downloader.py:176 | one character is kept exactly when it is a word character, whitespace or '-', and removed otherwise |
| PaperDownloader.RemoveSpecialAppend | implementations/intelligent_data_scraper/processors/paper_downloader.py:176 | the substitution of a concatenation is the concatenation of the substitutions, so it works character by character in order |
| PaperDownloader.UnderscoreRunsFromWord | implementations/intelligent_data_scraper/processors/paper_downloader.py:179 | from a non-whitespace character on, the substitution gives the words joined by '_', plus one '_' when the string ends in whitespace |
| PaperDownloader.UnderscoreRunsWords | implementations/intelligent_data_scraper/processors/paper_downloader.py:179 | `re.sub(r'\s+', '_', s)` is the words of `s` joined by '_', with one '_' more for a leading and for a trailing whitespace run, and a single '_' for a string of whitespace only |
| PaperDownloader.SafeFilenameOf | implementations/intelligent_data_scraper/processors/paper_downloader.py:171-184 | the safe name is the first 50 characters of the title with the special characters removed and each whitespace run replaced by one '_' |
| PaperDownloader.IdAt | implementations/intelligent_data_scraper/processors/paper_downloader.py:167 | the group `\d+\.\d+(?:v\d+)?` matched greedily at a position, or nothing; its shape is proved by MatchIsId |
| PaperDownloader.SearchFrom | implementations/intelligent_data_scraper/processors/paper_downloader.py:168 | `re.search`: the match at the leftmost position from `i` on where the pattern matches; proved by SearchSkip and SearchFindsId |
| PaperDownloader.SearchSkip | implementations/intelligent_data_scraper/processors/paper_downloader.py:168 | the search passes over the positions where the pattern does not match |
| PaperDownloader.ExtractArxivId | implementations/intelligent_data_scraper/processors/paper_downloader.py:164-169 | the identifier after the first `arxiv.org/abs/` or `arxiv.org/pdf/` that has one; proved by ArxivIdOfAbsUrl and SearchFindsId |
| PaperDownloader.StatusName | implementations/intelligent_data_scraper/processors/paper_downloader.py:73 | the `download_status` strings 'success', 'abstract_only' and 'failed' |
| PaperDownloader.TextContent | implementations/intelligent_data_scraper/processors/paper_downloader.py:206-220 | the metadata and abstract followed by the note that no PDF was found |
| PaperDownloader.Outcome | implementations/intelligent_data_scraper/processors/paper_downloader.py:88-109 | the download loop and the abstract fallback run on the prepared record; its properties are OutcomeStatus and OutcomeFallback |
| PaperDownloader.SinglePaper | implementations/intelligent_data_scraper/processors/paper_downloader.py:59-109 | what `_download_single_paper` returns: the initial record run through the loop over its candidate URLs; DownloadSinglePaper computes it |
| PdfGenerator.Normalized | implementations/intelligent_data_scraper/processors/pdf_generator.py:575 | normalising line endings leaves no carriage return |
| PdfGenerator.StrippedNonBlank | implementations/intelligent_data_scraper/processors/pdf_generator.py:576 | the blocks are the stripped non-blank pieces, none empty or starting or ending with whitespace |
| PdfGenerator.DropMarks | implementations/intelligent_data_scraper/processors/pdf_generator.py:583 | dropping the leading bullet marks leaves a suffix that does not start with one |
| PdfGenerator.DigitRun | implementations/intelligent_data_scraper/processors/pdf_generator.py:589 | the digit run starting at a position |
| PdfGenerator.NumberPrefix | implementations/intelligent_data_scraper/processors/pdf_generator.py:589-592 | the length of the `^\s*\d+\.\s+` match at the start of a line: whitespace, digits, a dot, whitespace |
| PdfGenerator.KindOfMeans | implementations/intelligent_data_scraper/processors/pdf_generator.py:577-603 | a block is a bullet list exactly when every non-blank line is a bullet line, a numbered list only when it is not that and every non-blank line is numbered, a quote only when neither, else a paragraph |
| PdfGenerator.BulletItem | implementations/intelligent_data_scraper/processors/pdf_generator.py:583-584 | a bullet item's markup has no newline |
| PdfGenerator.NumberedItem | implementations/intelligent_data_scraper/processors/pdf_generator.py:592-593 | a numbered item's markup has no newline |
| PdfGenerator.ItemsOf | implementations/intelligent_data_scraper/processors/pdf_generator.py:582-593 | a list block has one item per line, blank lines included |
| PdfGenerator.KindFlowables | implementations/intelligent_data_scraper/processors/pdf_generator.py:580-603 | every block yields at least one flowable |
| PdfGenerator.BlockFlowables | implementations/intelligent_data_scraper/processors/pdf_generator.py:577-603 | every block yields at least one flowable |
| PdfGenerator.BlocksFlowables | implementations/intelligent_data_scraper/processors/pdf_generator.py:577-603 | the blocks yield at least one flowable each |
| PdfGenerator.RichText | implementations/intelligent_data_scraper/processors/pdf_generator.py:569-604 | nothing for empty content or content without a non-blank block; otherwise one group holding the flowables of every block |
| PdfGenerator.ListItems | implementations/intelligent_data_scraper/processors/pdf_generator.py:582-584 | the item loop converts every line, in order |
| PdfGenerator.RenderList | implementations/intelligent_data_scraper/processors/pdf_generator.py:581-586 | a list block becomes one list flowable with one item per line |
| PdfGenerator.RenderBlock | implementations/intelligent_data_scraper/processors/pdf_generator.py:577-603 | the block loop body classifies the block and builds the list, quote or paragraph |
| PdfGenerator.BlocksStep | implementations/intelligent_data_scraper/processors/pdf_generator.py:577-603 | one more block appends its flowables |
| PdfGenerator.RenderRichText | implementations/intelligent_data_scraper/processors/pdf_generator.py:569-604 | the block loop and the grouping compute the rich text |
| PdfGenerator.RichTextOneLine | implementations/intelligent_data_scraper/processors/pdf_generator.py:569-626 | every paragraph and list item the rich text produces is one line of markup |
| PdfGenerator.NumberedNotBullet | implementations/intelligent_data_scraper/processors/pdf_generator.py:580-589 | a numbered line is never taken for a bullet line |
| PdfGenerator.NumberedBlock | implementations/intelligent_data_scraper/processors/pdf_generator.py:589-595 | a block whose lines are all numbered, at least one of them, is rendered as a numbered list |
| PdfGenerator.SectionBody | implementations/intelligent_data_scraper/processors/pdf_generator.py:234-246 | a section body is the rich text of its content when that is non-empty and does not start with "error generating" in any case, else the placeholder paragraph |
| PdfGenerator.ErrorTextNotRendered | implementations/intelligent_data_scraper/processors/pdf_generator.py:241 | error text is recognised whatever its letter case |
| PdfGenerator.Listing | implementations/intelligent_data_scraper/processors/pdf_generator.py:276-291 | for a non-empty list a gap, the heading, and for each of the first ten items its numbered entry and a gap; nothing for an empty list |
| PdfGenerator.CalculateDataStats | implementations/intelligent_data_scraper/processors/pdf_generator.py:536-567 | the paper, article, video and repository counts (0 for an absent source) and their sum |
| PdfGenerator.Keys | implementations/intelligent_data_scraper/processors/pdf_generator.py:488-510 | the info dict's keys, in insertion order |
| PdfGenerator.Lookup | implementations/intelligent_data_scraper/processors/pdf_generator.py:499-506 | a non-empty value belongs to a key present |
| PdfGenerator.Assign | implementations/intelligent_data_scraper/processors/pdf_generator.py:493-508 | setting a key gives it the value and leaves the others; a present key keeps its place and a new one goes to the end |
| PdfGenerator.WikiStep | implementations/intelligent_data_scraper/processors/pdf_generator.py:491-494 | the Wikipedia part sets full name and occupation, in that order |
| PdfGenerator.AssignIfEmpty | implementations/intelligent_data_scraper/processors/pdf_generator.py:499-500 | a key with an empty or no value is set; another is kept |
| PdfGenerator.AssignNew | implementations/intelligent_data_scraper/processors/pdf_generator.py:501-508 | a key not yet present goes to the end |
| PdfGenerator.ScholarStepKeys | implementations/intelligent_data_scraper/processors/pdf_generator.py:496-502 | the Scholar part adds full name only when absent, then affiliation and interests |
| PdfGenerator.LinkedInStepKeys | implementations/intelligent_data_scraper/processors/pdf_generator.py:504-508 | the LinkedIn part adds occupation only when absent, then company |
| PdfGenerator.WikiScholarKeys | implementations/intelligent_data_scraper/processors/pdf_generator.py:491-502 | the keys after the Wikipedia and Scholar parts |
| PdfGenerator.BasicInfoKeys | implementations/intelligent_data_scraper/processors/pdf_generator.py:486-510 | the keys come in the order the three sources first set them |
| PdfGenerator.ScholarStepValues | implementations/intelligent_data_scraper/processors/pdf_generator.py:499-502 | the Scholar part sets its name only over an empty full name, always sets its affiliation, and joins the first five interests with ", " |
| PdfGenerator.LinkedInStepValues | implementations/intelligent_data_scraper/processors/pdf_generator.py:506-508 | the LinkedIn part sets its title only over an empty occupation, and always its company |
| PdfGenerator.BasicInfoValues | implementations/intelligent_data_scraper/processors/pdf_generator.py:486-510 | every key holds its expected value, and a missing key reads as "" |
| PdfGenerator.Rows | implementations/intelligent_data_scraper/processors/pdf_generator.py:514-517 | the rows are label and value of every non-empty value, in key order; none exactly when every value is empty |
| PdfGenerator.InfoTable | implementations/intelligent_data_scraper/processors/pdf_generator.py:512-534 | no table exactly when every value is empty; otherwise the table of the rows |
| PdfGenerator.RowsSnoc | implementations/intelligent_data_scraper/processors/pdf_generator.py:515-517 | one more entry adds its row exactly when its value is non-empty |
| PdfGenerator.CreateInfoTable | implementations/intelligent_data_scraper/processors/pdf_generator.py:512-520 | the row loop computes the info table |
| PdfGenerator.TableOf | implementations/intelligent_data_scraper/processors/pdf_generator.py:189-193 | the table as a list of at most one flowable, empty exactly when there is no table |
| PdfGenerator.StoryNone | implementations/intelligent_data_scraper/processors/pdf_generator.py:189-193 | the story as written holds None exactly when the info has keys but every value is empty |
| PdfGenerator.TitlePageNone | implementations/intelligent_data_scraper/processors/pdf_generator.py:173-208 | the title page as written holds None exactly when some source set keys but every value is empty |
| PdfGenerator.EmptyWikipediaBreaksTitlePage | implementations/intelligent_data_scraper/processors/pdf_generator.py:189-193 | a Wikipedia record with an empty title and occupation, and no other source, puts None in the title page |
| PdfGenerator.StoryCorrected | implementations/intelligent_data_scraper/processors/pdf_generator.py:189-193 | the intended story is the written one with None left out |
| PdfGenerator.TitlePageCorrected | implementations/intelligent_data_scraper/processors/pdf_generator.py:173-208 | the intended title page is the written one with None left out |
| PdfGenerator.StoryTable | implementations/intelligent_data_scraper/processors/pdf_generator.py:189-193 | the intended story holds a table exactly when some value is non-empty |
| PdfGenerator.TitlePageTable | implementations/intelligent_data_scraper/processors/pdf_generator.py:173-208 | the intended title page holds a table exactly when some basic-information value is non-empty |
| PdfGenerator.ReplaceCharPointwise | implementations/intelligent_data_scraper/processors/pdf_generator.py:97 | replacing a character by one character works position by position |
| PdfGenerator.PdfFilename | implementations/intelligent_data_scraper/processors/pdf_generator.py:97-98 | the file name is the name with spaces and slashes made '_', then "_profile.pdf"; no space or slash is left of the name |
| PdfGenerator.Blocks | implementations/intelligent_data_scraper/processors/pdf_generator.py:575-576 | the blocks of a text are its stripped non-blank pieces between blank lines; StrippedNonBlank proves their shape |
| PdfGenerator.IsBulletLine | implementations/intelligent_data_scraper/processors/pdf_generator.py:580 | a bullet line is a non-blank line whose stripped text starts with '-', '•' or '*' |
| PdfGenerator.IsQuote | implementations/intelligent_data_scraper/processors/pdf_generator.py:597 | a quote block starts and ends with '"' and is longer than two characters |
| PdfGenerator.KindOf | implementations/intelligent_data_scraper/processors/pdf_generator.py:577-603 | a block is classified as a bullet list, else a numbered list, else a quote, else a paragraph; KindOfMeans states each case |
| PdfGenerator.Renders | implementations/intelligent_data_scraper/processors/pdf_generator.py:241 | section text is rendered unless it is empty or starts, in any letter case, with "error generating" |
| PdfGenerator.KeyOrder | implementations/intelligent_data_scraper/processors/pdf_generator.py:486-510 | the order in which `_extract_basic_info` first sets each key; BasicInfoKeys proves the dict follows it |
| PdfGenerator.BasicInfoOf | implementations/intelligent_data_scraper/processors/pdf_generator.py:486-510 | the basic information filled by Wikipedia, then Google Scholar, then LinkedIn; BasicInfoKeys and BasicInfoValues state its keys and values |
| PdfGenerator.Expected | implementations/intelligent_data_scraper/processors/pdf_generator.py:486-510 | the value each key of the basic information ends with, source by source |
| PdfGenerator.StoryAsWritten | implementations/intelligent_data_scraper/processors/pdf_generator.py:196-200 | the info table is appended, None included, whenever the info dict has keys |
| PdfGenerator.TitlePageAsWritten | implementations/intelligent_data_scraper/processors/pdf_generator.py:173-208 | `_create_title_page` as written, with the value of `_create_info_table` appended even when it is None; TitlePageNone says when that happens |
| PdfGenerator.TitlePage | implementations/intelligent_data_scraper/processors/pdf_generator.py:173-208 | the title page as intended, with no None in it; TitlePageCorrected and TitlePageTable state its contents |
| PdfGenerator.WikiScholarOrderFacts | implementations/intelligent_data_scraper/processors/pdf_generator.py:491-502 | Wikipedia and Scholar never set the company, and the occupation is set exactly when Wikipedia is present |
| PdfGenerator.PresentLift | implementations/intelligent_data_scraper/processors/pdf_generator.py:173-208 | a story without None loses nothing when the None entries are left out |
| Provider.Service.constructor | implementations/intelligent-scraper/v2/lib/report_generator.py:31-40 | a fresh service has made no calls and taken no sleeps |
| Provider.Service.Generate | implementations/intelligent-scraper/v2/lib/report_generator.py:385 | one `generate_content` call: the call is recorded after the earlier ones and the reply is what the service answers to it |
| Provider.Service.Sleep | implementations/intelligent-scraper/v2/lib/report_generator.py:325 | `time.sleep` appends its delay to the recorded sleeps and changes nothing else |
| Provider.ReplyResult | implementations/intelligent-scraper/v2/lib/report_generator.py:402-423 | a reply yields its text exactly when it is an answer, and the raised exception otherwise |
| Provider.AskRecords | implementations/intelligent-scraper/v1/processors/content_synthesizer.py:322 | each call is appended to the call log, no sleep is recorded, and the reply is the answer to that n-th call |
| Provider.ChunksFromFacts | implementations/intelligent-scraper/v2/lib/report_generator.py:393-400 | the slices from `i` on concatenate back to `text[i:]`, each is non-empty and at most `chunk_size` long, all but the last are exactly that long, and there are some exactly when `i` is before the end |
| Provider.ChunksFacts | implementations/intelligent-scraper/v2/lib/report_generator.py:393-400 | `_split_prompt` round-trips: `''.join(chunks) == text`, chunk sizes as above, no chunk for the empty text; the identical copy is implementations/intelligent-scraper/v1/processors/content_synthesizer.py:341-347 |
| Provider.SplitPrompt | implementations/intelligent-scraper/v2/lib/report_generator.py:393-400 | the `while` loop returns exactly the chunk list `Chunks(text, chunk_size)` |
| Provider.AskAllFacts | implementations/intelligent-scraper/v2/lib/report_generator.py:384-386 | the map phase calls the model once per chunk in order and never sleeps; on success it returns the answers in chunk order; on failure every earlier call was answered and the last one raised the returned exception |
| Provider.AskAllStep | implementations/intelligent-scraper/v1/processors/content_synthesizer.py:321-324 | one answered call followed by the rest of the phase still satisfies the map-phase outcome |
| Provider.AskEach | implementations/intelligent-scraper/v1/processors/content_synthesizer.py:321-324 | the `for ch in chunks` loop computes exactly the phase outcome and the service state after it |
| PersonSearcher.NewPaperMetadata | implementations/intelligent-scraper/v2/lib/person_searcher.py:29-50 | a paper record built with `urls=None` ends with an empty URL list; given URLs are kept, and the other fields are as passed |
| PersonSearcher.SearchPerson | implementations/intelligent-scraper/v2/lib/person_searcher.py:62-84 | a ValueError exactly when neither a name nor a Scholar id is given; the Scholar id wins when both are |
| PersonSearcher.Strings | implementations/intelligent-scraper/v2/lib/person_searcher.py:378-379 | a list of author strings is read in order |
| PersonSearcher.AuthorList | implementations/intelligent-scraper/v2/lib/person_searcher.py:382 | the author list is the comma-split pieces, each stripped |
| PersonSearcher.StripAll | implementations/intelligent-scraper/v2/lib/person_searcher.py:382 | stripping each element keeps the length and the order |
| PersonSearcher.FirstWhereFacts | implementations/intelligent-scraper/v2/lib/person_searcher.py:385-392 | the scan gives -1 exactly when nothing from the start position on matches, and otherwise the first match |
| PersonSearcher.FirstMatchFacts | implementations/intelligent-scraper/v2/lib/person_searcher.py:385-392 | -1 exactly when no author matches, otherwise the 1-based index of the first that does |
| PersonSearcher.DetectAuthorPositionFacts | implementations/intelligent-scraper/v2/lib/person_searcher.py:362-392 | -1 for a falsy author string or when no author matches; otherwise the 1-based index of the first author containing a part of more than two characters of the cleaned name |
| PersonSearcher.DetectAuthorPosition | implementations/intelligent-scraper/v2/lib/person_searcher.py:374-392 | the early-return loop computes the position |
| PersonSearcher.FirstMatchStep | implementations/intelligent-scraper/v2/lib/person_searcher.py:385-390 | one step of the scan: stop at a match, go on otherwise |
| PersonSearcher.AnyPartIn | implementations/intelligent-scraper/v2/lib/person_searcher.py:389 | true exactly when some name part of more than two characters occurs in the lowercased author |
| PersonSearcher.CollectUrls | implementations/intelligent-scraper/v2/lib/person_searcher.py:145-166 | the guarded appends give the non-empty candidate URLs, each once, in candidate order |
| PersonSearcher.UrlsDuplicateFree | implementations/intelligent-scraper/v2/lib/person_searcher.py:145-166 | the URL list has no duplicate and no empty entry, and holds every non-empty candidate |
| PersonSearcher.PaperOf | implementations/intelligent-scraper/v2/lib/person_searcher.py:176-193 | a visited publication contributes its paper when it has a title, with the publication's citation count |
| PersonSearcher.PapersOf | implementations/intelligent-scraper/v2/lib/person_searcher.py:130-197 | the loop collects at most one paper per publication |
| PersonSearcher.CollectOk | implementations/intelligent-scraper/v2/lib/person_searcher.py:130-197 | collecting contributions yields at most one per publication |
| PersonSearcher.ScholarIdPapers | implementations/intelligent-scraper/v2/lib/person_searcher.py:124-197 | the processing loop runs over the `max_papers` publications with the most listed citations, and builds each paper from the filled record, or from the listed one when the fill raised |
| PersonSearcher.ProcessPublication | implementations/intelligent-scraper/v2/lib/person_searcher.py:131-193 | one loop body collects the URLs, detects the author position and keeps the titled paper |
| PersonSearcher.ScholarIdPapersBounded | implementations/intelligent-scraper/v2/lib/person_searcher.py:124-197 | at most `max_papers` papers, all titled |
| PersonSearcher.VisitedAll | implementations/intelligent-scraper/v2/lib/person_searcher.py:134-140 | the records the loop body reads: for each visited publication its filled record, or the listed one when `scholarly.fill` raised |
| PersonSearcher.FillCanReorder | implementations/intelligent-scraper/v2/lib/person_searcher.py:126-181 | the sort uses the listed count and the paper the filled count, so a fill that reports a higher count for the second publication puts the papers out of descending order |
| PersonSearcher.PaperOfUnchanged | implementations/intelligent-scraper/v2/lib/person_searcher.py:176-193 | whether a publication yields a paper does not depend on its citation count |
| PersonSearcher.CollectTwoAscending | implementations/intelligent-scraper/v2/lib/person_searcher.py:176-193 | two contributing publications with ascending counts give papers out of descending order |
| PersonSearcher.PapersOfTitled | implementations/intelligent-scraper/v2/lib/person_searcher.py:192-193 | every collected paper has a title |
| PersonSearcher.CollectTitled | implementations/intelligent-scraper/v2/lib/person_searcher.py:192-193 | filtering by title keeps only titled papers |
| PersonSearcher.CollectBounded | implementations/intelligent-scraper/v2/lib/person_searcher.py:181 | no collected paper has more citations than any publication |
| PersonSearcher.CollectDescending | implementations/intelligent-scraper/v2/lib/person_searcher.py:127-193 | filtering a citation-descending list keeps it descending |
| PersonSearcher.ScholarIdPapersByCitations | implementations/intelligent-scraper/v2/lib/person_searcher.py:126-193 | when every fill reports the count the listing was sorted on, the Scholar-id papers come in descending citation order (FillCanReorder shows the condition is needed) |
| PersonSearcher.ParsePublication | implementations/intelligent-scraper/v2/lib/person_searcher.py:394-431 | None for an untitled record; list authors are joined by ", ", and missing authors or year read "Unknown"; the first URL becomes the PDF URL |
| PersonSearcher.FallbackPapers | implementations/intelligent-scraper/v2/lib/person_searcher.py:335-350 | one paper per enriched record, with its citation count |
| PersonSearcher.FetchWithFallback | implementations/intelligent-scraper/v2/lib/person_searcher.py:304-360 | the enriched records sorted by citations, highest first, cut to `max_papers`; two records or more with a citation value that is not an integer give [] (see Left out) |
| PersonSearcher.AuthorsString | implementations/intelligent-scraper/v2/lib/person_searcher.py:173-174 | an author string as it is, a list of strings joined by ", ", and anything else raises |
| PersonSearcher.PositionSpec | implementations/intelligent-scraper/v2/lib/person_searcher.py:362-392 | -1 for a falsy author value, else the 1-based position of the first author matching a name part, or -1; DetectAuthorPosition computes it and DetectAuthorPositionFacts states it |
| PersonSearcher.UrlCandidates | implementations/intelligent-scraper/v2/lib/person_searcher.py:145-166 | the candidate URLs in the order they are tried: eprint, pub, the epubs links, the bib url; CollectUrls keeps them without repeats |
| PersonSearcher.ScholarPaper | implementations/intelligent-scraper/v2/lib/person_searcher.py:176-190 | one Scholar publication's metadata: list authors joined by ", ", "Unknown" for missing authors or year, the abstract cut at 1000 characters, the first URL as PDF URL and URL, or the error that skips it |
| PersonSearcher.TopPubs | implementations/intelligent-scraper/v2/lib/person_searcher.py:124-129 | the publications the loop visits: at most `max_papers` of the listed publications, in non-increasing order of their listed (unfilled) `num_citations` |
| PersonSearcher.ParsedAuthorsSplitBack | implementations/intelligent-scraper/v2/lib/person_searcher.py:394-431 | a parsed record's ", "-joined author list, split at commas and stripped as the position scan does, gives the list's names back |
| PersonSearcher.JoinedAuthorsSplitBack | implementations/intelligent-scraper/v2/lib/person_searcher.py:382 | non-empty, stripped, comma-free names joined by ", " are read back by the author-list split |
| PersonSearcher.PyStr | implementations/intelligent-scraper/v2/lib/person_searcher.py:417 | Python's `str()` of a value: a string is itself, None, booleans and integers read as Python prints them, and a list shows the `repr` of its elements (see Left out for the quoting) |
| PersonSearcher.PyRepr | implementations/intelligent-scraper/v2/lib/person_searcher.py:417 | Python's `repr()` as `str()` of a list uses it: a string between single quotes, a list as its elements' `repr` separated by ", " between brackets |
| PersonSearcher.CitationKey | implementations/intelligent-scraper/v2/lib/person_searcher.py:331 | the sort key `p.get('citations', 0)` of an enriched publication |
| PersonSearcher.FallbackPaper | implementations/intelligent-scraper/v2/lib/person_searcher.py:337-349 | the metadata of one enriched publication: its title, authors or "Unknown", `str` of the year or "Unknown", venue, citations, DOI and its URL as PDF, publication and plain URL, with an empty abstract |
| PublicationsEnricher.FillFromFacts | implementations/intelligent_data_scraper/processors/publications_enricher.py:133-135 | filling never touches a truthy field or a field outside the list, and fills a falsy listed field from a record that has it |
| PublicationsEnricher.Insert | implementations/intelligent_data_scraper/processors/publications_enricher.py:124-135 | one merge step keeps the index well formed: skip an empty key, insert a new key, or fill the kept record |
| PublicationsEnricher.MergeFrom | implementations/intelligent_data_scraper/processors/publications_enricher.py:118-136 | merging keeps the index well formed, keys and map agreeing |
| PublicationsEnricher.KeyList | implementations/intelligent_data_scraper/processors/publications_enricher.py:125 | one merge key per record, with "" where none can be computed |
| PublicationsEnricher.InsertKeys | implementations/intelligent_data_scraper/processors/publications_enricher.py:126-129 | inserting a key extends the key order exactly as a first-occurrence filter does |
| PublicationsEnricher.InsertKeySet | implementations/intelligent_data_scraper/processors/publications_enricher.py:126-129 | a new non-empty key joins the key set; otherwise the key set is unchanged |
| PublicationsEnricher.InsertKeysOrder | implementations/intelligent_data_scraper/processors/publications_enricher.py:126-129 | the key order after one step, followed by the rest, equals the filtered order |
| PublicationsEnricher.DedupKeysHead | implementations/intelligent_data_scraper/processors/publications_enricher.py:126-129 | one step of the first-occurrence filter on keys |
| PublicationsEnricher.MergeFromKeys | implementations/intelligent_data_scraper/processors/publications_enricher.py:124-136 | the output keys are the earlier keys followed by the first occurrences of the new non-empty keys not seen before |
| PublicationsEnricher.MergeKeysFirstOccurrence | implementations/intelligent_data_scraper/processors/publications_enricher.py:118-136 | merge keys are pairwise distinct and follow the first-occurrence order of the input's non-empty keys |
| PublicationsEnricher.InsertKeeps | implementations/intelligent_data_scraper/processors/publications_enricher.py:132-135 | a merge step keeps each kept record's truthy fields and its unlisted fields |
| PublicationsEnricher.MergeFromKeeps | implementations/intelligent_data_scraper/processors/publications_enricher.py:124-136 | the whole merge keeps each already kept record's truthy and unlisted fields |
| PublicationsEnricher.MergeFromFirstKept | implementations/intelligent_data_scraper/processors/publications_enricher.py:128-135 | the first record with each key is kept; a later duplicate never overwrites a truthy field, nor title, doi or source |
| PublicationsEnricher.MergeFromStep | implementations/intelligent_data_scraper/processors/publications_enricher.py:124-129 | the merge of a list with a keyable head is the merge of the tail after inserting the head |
| PublicationsEnricher.MergePublications | implementations/intelligent_data_scraper/processors/publications_enricher.py:118-136 | the loop filling `by_key` computes the merge |
| PublicationsEnricher.AddToIndex | implementations/intelligent_data_scraper/processors/publications_enricher.py:125-135 | the body of the merge loop performs one merge step |
| PublicationsEnricher.FillMissing | implementations/intelligent_data_scraper/processors/publications_enricher.py:132-135 | the inner field loop fills each listed field that is falsy in the kept record and truthy in the new one |
| PublicationsEnricher.FilterByExactAuthor | implementations/intelligent_data_scraper/processors/publications_enricher.py:138-161 | empty input gives []; otherwise the order-preserving subsequence whose author strings contain the stripped, lowercased name; the affiliation test does not filter |
| PublicationsEnricher.PrefixedNone | implementations/intelligent_data_scraper/processors/publications_enricher.py:146-160 | an empty prefix leaves the result unchanged |
| PublicationsEnricher.PrefixedAppend | implementations/intelligent_data_scraper/processors/publications_enricher.py:146-160 | appending one kept record to the prefix composes |
| PublicationsEnricher.AuthorFilterSubsequence | implementations/intelligent_data_scraper/processors/publications_enricher.py:147-160 | the filtered list is a subsequence of the input and holds only records whose lowercased authors contain the target; PublicationsEnricher.AuthorFilterComplete states that every such record is kept |
| PublicationsEnricher.CrossrefRecords | implementations/intelligent_data_scraper/processors/publications_enricher.py:53-76 | one record per item, built from the first title, the printed or else online year, the joined authors, with source "crossref", stopping at the first item whose date parts raise |
| PublicationsEnricher.S2Records | implementations/intelligent_data_scraper/processors/publications_enricher.py:96-113 | one Semantic Scholar record per item, in order |
| PublicationsEnricher.EnrichByAuthor | implementations/intelligent_data_scraper/processors/publications_enricher.py:21-35 | at most `max_results` records: the first ones of the merge of the Crossref records followed by the Semantic Scholar records, [] when merging raises, nothing added by a response that is not 200 |
| PublicationsEnricher.EnrichByAuthorKeys | implementations/intelligent_data_scraper/processors/publications_enricher.py:23-35 | when merging succeeds, the output is one merged record per merge key: the keys are non-empty, distinct, in first-occurrence order over the Crossref then Semantic Scholar records, every input key is among them, and the first `max_results` are returned |
| PublicationsEnricher.MergedTakeFacts | implementations/intelligent_data_scraper/processors/publications_enricher.py:119-137 | the first `n` values of the merge are the records stored under the first `n` distinct keys, in first-occurrence order |
| Reports.SectionKeysFacts | implementations/intelligent-scraper/v2/lib/report_generator.py:91-144 | the ten section configs, in insertion order, have ten distinct keys |
| Reports.Filter | implementations/intelligent-scraper/v2/lib/report_generator.py:157-158 | the list comprehensions keep exactly the items that pass (or fail) the test, in order |
| Reports.FilterPartition | implementations/intelligent-scraper/v2/lib/report_generator.py:157-158 | every paper lands in exactly one of the downloaded and metadata-only lists |
| Reports.PickFacts | implementations/intelligent-scraper/v2/lib/report_generator.py:160-177 | at most 15 downloaded papers, sorted by richness, then metadata papers sorted by citations filling up to 20 in total; each part drawn from its own list |
| Reports.PickSorted | implementations/intelligent-scraper/v2/lib/report_generator.py:160-177 | the pick has exactly `min(15, nD) + min(nM, 20 - that)` items, each part sorted in descending key order |
| Reports.PickMembers | implementations/intelligent-scraper/v2/lib/report_generator.py:175-177 | the first part comes from the downloaded list and the rest from the metadata list |
| Reports.PickTop | implementations/intelligent-scraper/v2/lib/report_generator.py:161-175 | a downloaded paper that is cut is ranked no higher than any downloaded paper kept |
| Reports.ExcerptsOf | implementations/intelligent-scraper/v2/lib/report_generator.py:180-191 | one excerpt per included paper, in the same order |
| Reports.PrepareExcerpts | implementations/intelligent-scraper/v2/lib/report_generator.py:146-193 | `_prepare_paper_excerpts_for_section` returns exactly the excerpts of the included papers |
| Reports.ToExcerpts | implementations/intelligent-scraper/v2/lib/report_generator.py:180-191 | the loop builds one excerpt per paper, in order |
| Reports.ExcerptsFacts | implementations/intelligent-scraper/v2/lib/report_generator.py:146-193 | at most 20 excerpts; the downloaded ones come first and are exactly the first `min(15, nD)`; every excerpt shows what is stored under its id |
| Reports.ExcerptsCount | implementations/intelligent-scraper/v2/lib/report_generator.py:146-193 | one excerpt per included paper, at most 20: `min(15, nD)` downloaded ones ranked by richness, then metadata-only ones ranked by citations filling the remaining slots |
| Reports.ExcerptsContents | implementations/intelligent-scraper/v2/lib/report_generator.py:146-193 | the downloaded excerpts are exactly the first `min(15, nD)`, and every excerpt shows what is stored under its id |
| Reports.ExcerptsOfFacts | implementations/intelligent-scraper/v2/lib/report_generator.py:180-191 | excerpts of stored papers show the stored content and are flagged downloaded exactly for the first part |
| Reports.IncludedFacts | implementations/intelligent-scraper/v2/lib/report_generator.py:156-177 | the included papers are stored items, the downloaded ones first ranked by richness, the rest by citations, with the counts above |
| Reports.RichestFirst | implementations/intelligent-scraper/v2/lib/report_generator.py:161-175 | a downloaded paper left out is no richer than any downloaded paper included |
| Reports.Group | implementations/intelligent-scraper/v2/lib/report_generator.py:271-274 | a `[^c]+` group after `\s+` is non-empty and free of its stop character |
| Reports.SuffixLength | implementations/intelligent-scraper/v2/lib/report_generator.py:272 | the optional `(?:\s*-\s*metadata only)?` suffix stays inside the text |
| Reports.MarkerAt | implementations/intelligent-scraper/v2/lib/report_generator.py:271-274 | a marker match ends after its start, and both groups are non-empty, the title without a comma and the rest without a `]` |
| Reports.FormatCitationScans | implementations/intelligent-scraper/v2/lib/report_generator.py:268-274 | scanning the tracker's own inline marker for a reference with a comma-free title finds exactly one marker, giving back that title |
| Reports.MarkerOf | implementations/intelligent-scraper/v2/lib/report_generator.py:271-274 | scanning `[From: t, y]` finds exactly the marker `(t, y)` |
| Reports.MarkerAtSingleSpaces | implementations/intelligent-scraper/v2/lib/report_generator.py:271-274 | a marker with single-space runs and non-empty groups matches at its start with exactly those groups |
| Reports.FirstMatch | implementations/intelligent-scraper/v2/lib/report_generator.py:281-286 | the first excerpt whose title contains or is contained in the cited title, or none when no excerpt matches |
| Reports.Tracked | implementations/intelligent-scraper/v2/lib/report_generator.py:279-286 | tracking the markers keeps the ledger invariant |
| Reports.TrackOne | implementations/intelligent-scraper/v2/lib/report_generator.py:281-286 | one marker cites at most the first matching excerpt and keeps the invariant |
| Reports.TrackedFacts | implementations/intelligent-scraper/v2/lib/report_generator.py:262-291 | tracking leaves the references and every other section alone; this section's list keeps its entries in front and gains exactly the registered ids of matched excerpts |
| Reports.CiteStep | implementations/intelligent-scraper/v2/lib/report_generator.py:284 | one `add_citation` grows only this section's list, by this paper when it is registered |
| Reports.AttemptFacts | implementations/intelligent-scraper/v2/lib/report_generator.py:299-304 | one attempt (direct, or chunked with a reduce call) makes calls and no sleeps, a prompt of at most 8000 characters is sent as it is in exactly one call, a returned text is the answer to its last call and a raised exception is what its last call raised |
| Reports.AttemptAlwaysFails | implementations/intelligent-scraper/v2/lib/report_generator.py:299-304 | when every call raises `e`, an attempt makes exactly one call and raises `e` |
| Reports.RetryInAt | implementations/intelligent-scraper/v2/lib/report_generator.py:318 | a match of `retry in ([\d.]+)s` captures a non-empty run of digits and dots |
| Reports.RetryInFrom | implementations/intelligent-scraper/v2/lib/report_generator.py:318 | `re.search` finds the first match at or after the index, with the same group shape |
| Reports.Decimal | implementations/intelligent-scraper/v2/lib/report_generator.py:320 | `float` of a digits-dot-digits group is that exact decimal |
| Reports.AtLeast30 | implementations/intelligent-scraper/v2/lib/report_generator.py:321 | `max(extracted_delay, 30)` is the extracted delay or 30, never below 30, and the delay itself when it is already 30 or more |
| Reports.NextFallback | implementations/intelligent-scraper/v2/lib/report_generator.py:365-376 | `_get_fallback_model` hands out the next fallback and moves the index on exactly when one is left, and otherwise returns None leaving the index |
| Reports.SwitchedFacts | implementations/intelligent-scraper/v2/lib/report_generator.py:327-339 | taking a fallback keeps the model a known one and advances the index by at most one, and the model after it is the old model or the fallback just handed out |
| Reports.KeptTrans | implementations/intelligent-scraper/v2/lib/report_generator.py:365-376 | the index only moving on and the model changing only to fallbacks handed out compose over consecutive steps |
| Reports.StepModel | implementations/intelligent-scraper/v2/lib/report_generator.py:323-339 | an attempt takes a fallback only on the last two attempts, and the model after it is the one before or the fallback it handed out |
| Reports.RetryModel | implementations/intelligent-scraper/v2/lib/report_generator.py:293-363 | after `_generate_with_retries` the model is the primary one or a handed-out fallback, at most two fallbacks are taken per call, the model it ends with is the one it started with or a fallback handed out during the call, so a generator already on a fallback never returns to a primary model that is not itself a fallback |
| Reports.StepRecord | implementations/intelligent-scraper/v2/lib/report_generator.py:323-355 | an attempt adds calls and sleeps at most once, never on the last attempt |
| Reports.RetrySleeps | implementations/intelligent-scraper/v2/lib/report_generator.py:293-363 | the retry loop sleeps at most once per attempt but the last |
| Reports.StepAnswered | implementations/intelligent-scraper/v2/lib/report_generator.py:299-304 | a text an attempt returns answers its last call |
| Reports.RetryAnswered | implementations/intelligent-scraper/v2/lib/report_generator.py:293-363 | the text `_generate_with_retries` returns is the model's answer to the last call made |
| Reports.LoopExhausts | implementations/intelligent-scraper/v2/lib/report_generator.py:357-363 | when every attempt goes on, the loop ends with "Generation failed after N retries" naming the last exception |
| Reports.LoopWaits | implementations/intelligent-scraper/v2/lib/report_generator.py:297-355 | when every attempt goes on after its wait, the loop's sleeps are those waits in order |
| Reports.LoopOneCallEach | implementations/intelligent-scraper/v2/lib/report_generator.py:297-355 | when every attempt makes one call on the same model, the loop makes one call per attempt |
| Reports.BackoffAttempts | implementations/intelligent-scraper/v2/lib/report_generator.py:347-355 | under a constant non-quota error every attempt makes one call, waits `2 ** attempt` unless last, and goes on |
| Reports.RetryBackoff | implementations/intelligent-scraper/v2/lib/report_generator.py:293-363 | with a constant non-quota error there is one call per attempt, waits of 1, 2, 4, ... seconds between attempts, no fallback, and the exhaustion error |
| Reports.QuotaWaitsRepeat | implementations/intelligent-scraper/v2/lib/report_generator.py:323-325 | the quota waits are the same delay repeated once per attempt but the last |
| Reports.RetryQuota | implementations/intelligent-scraper/v2/lib/report_generator.py:306-363 | with a constant quota error whose delay reads as `d`, every attempt but the last waits `d` and the loop ends with the quota exhaustion error |
| Reports.RetryQuotaResult | implementations/intelligent-scraper/v2/lib/report_generator.py:357-363 | its result is the exhaustion error naming the quota exception |
| Reports.RetryQuotaWaits | implementations/intelligent-scraper/v2/lib/report_generator.py:323-325 | its sleeps are the quota waits |
| Reports.QuotaAttempts | implementations/intelligent-scraper/v2/lib/report_generator.py:306-339 | under a constant quota error every attempt waits `d` unless last, and goes on |
| Reports.QuotaStepWaits | implementations/intelligent-scraper/v2/lib/report_generator.py:323-325 | one attempt under that error waits `d` unless it is the last |
| Reports.ParseWhole | implementations/intelligent-scraper/v2/lib/report_generator.py:320 | `float` of a whole number written in digits is that number |
| Reports.ParseFraction | implementations/intelligent-scraper/v2/lib/report_generator.py:320 | `float` of `a.b` is `a` followed by the digits of `b` over a power of ten |
| Reports.ParseParts | implementations/intelligent-scraper/v2/lib/report_generator.py:320 | a digits-dot-digits run parses as that decimal |
| Reports.ParseTwoDots | implementations/intelligent-scraper/v2/lib/report_generator.py:320 | a run with two dots is not a number: `float` raises ValueError |
| Reports.NoEarlierMatch | implementations/intelligent-scraper/v2/lib/report_generator.py:318 | none of the first seven positions of "Please retry in <n>s" starts a match |
| Reports.MatchAtSeven | implementations/intelligent-scraper/v2/lib/report_generator.py:318 | at index 7 that message matches and the group is the number's digits |
| Reports.ScanFinds | implementations/intelligent-scraper/v2/lib/report_generator.py:318 | the search finds that match |
| Reports.QuotaDelayReadsBack | implementations/intelligent-scraper/v2/lib/report_generator.py:312-321 | a quota message "Please retry in <n>s" reads back as `n` seconds, raised to the 30-second minimum |
| Reports.QuotaDelayDefault | implementations/intelligent-scraper/v2/lib/report_generator.py:313-315 | a message mentioning no retry delay leaves the configured quota wait |
| Reports.SectionText | implementations/intelligent-scraper/v2/lib/report_generator.py:56-87 | a section gets its content, or a bracketed error text starting with `[Error` that keeps at most 200 characters of the message |
| Reports.ExhaustedQuotaText | implementations/intelligent-scraper/v2/lib/report_generator.py:82-84 | running out of retries after a quota error gives the section the quota placeholder |
| Reports.Pick | implementations/intelligent-scraper/v2/lib/report_generator.py:160-177 | the first 15 downloaded papers by richness, then the most cited metadata-only ones, 20 in all at most; PickFacts, PickSorted and PickTop state it |
| Reports.Included | implementations/intelligent-scraper/v2/lib/report_generator.py:156-177 | `papers_to_include` for the paper contents; IncludedFacts states it |
| Reports.Excerpts | implementations/intelligent-scraper/v2/lib/report_generator.py:146-193 | the excerpts of the included papers, the section key playing no part; ExcerptsFacts states them |
| Reports.PaperEntry | implementations/intelligent-scraper/v2/lib/report_generator.py:222-232 | one numbered entry: title, year, authors and status, the abstract cut at 300 characters when present, and at most five key points |
| Reports.PaperText | implementations/intelligent-scraper/v2/lib/report_generator.py:220-232 | the entries of the excerpts numbered from 1, concatenated |
| Reports.SectionPrompt | implementations/intelligent-scraper/v2/lib/report_generator.py:214-260 | `_build_section_prompt`: length, title and focus of the section, the person's name, the paper text and the fixed requirements |
| Reports.MarkersFrom | implementations/intelligent-scraper/v2/lib/report_generator.py:271-274 | `re.findall` of the citation pattern from an index on, resuming after each match; FormatCitationScans reads a formatted citation back as its one marker |
| Reports.CitedIds | implementations/intelligent-scraper/v2/lib/report_generator.py:279-286 | the ids the markers resolve to, in marker order; TrackedFacts states it |
| Reports.Chunked | implementations/intelligent-scraper/v2/lib/report_generator.py:378-391 | one call per 4000-character chunk, then the reduce call on the joined answers; ChunkedFacts and LongAttempt state it |
| Reports.Attempt | implementations/intelligent-scraper/v2/lib/report_generator.py:299-304 | one attempt's `try` body, chunked for a prompt over 8000 characters; AttemptFacts, ShortAttempt and LongAttempt state it |
| Reports.ChunkedFacts | implementations/intelligent-scraper/v2/lib/report_generator.py:378-391 | the chunked branch adds calls and no sleeps; its text answers the last call, its exception is the one the last call raised |
| Reports.ShortAttempt | implementations/intelligent-scraper/v2/lib/report_generator.py:299-304 | a prompt of at most 8000 characters makes exactly the one call on itself and returns its text or the exception it raised |
| Reports.LongAttempt | implementations/intelligent-scraper/v2/lib/report_generator.py:378-391 | a prompt over 8000 characters whose calls are answered makes ceil(len/4000) calls on its 4000-character chunks in order, then one reduce call on the header and the answers joined by the separator, and returns the reduce answer |
| Reports.ParseDecimal | implementations/intelligent-scraper/v2/lib/report_generator.py:320 | `float(g)` for a run of digits and dots, or `ValueError` for two dots or no digit; ParseWhole, ParseFraction and ParseTwoDots state it |
| Reports.QuotaDelay | implementations/intelligent-scraper/v2/lib/report_generator.py:312-321 | the wait after a quota error: the configured delay, or the larger of the delay read from `retry in <n>s` and 30 seconds; QuotaDelayReadsBack and QuotaDelayDefault state it |
| Reports.RetryMessage | implementations/intelligent-scraper/v2/lib/report_generator.py:314 | the quota message in the form the service writes it, on which QuotaDelayReadsBack reads the delay back |
| Reports.Exhausted | implementations/intelligent-scraper/v2/lib/report_generator.py:357-363 | the exception raised once every attempt failed; RetryQuotaResult and LoopExhausts state it |
| Reports.Switched | implementations/intelligent-scraper/v2/lib/report_generator.py:327-339 | asking for a fallback model and switching to it when it is a non-empty name; SwitchedFacts states it |
| Reports.Retry | implementations/intelligent-scraper/v2/lib/report_generator.py:293-363 | `_generate_with_retries`; RetryModel, RetrySleeps, RetryAnswered, RetryBackoff and RetryQuota state it |
| Reports.Backoffs | implementations/intelligent-scraper/v2/lib/report_generator.py:347-355 | the waits `2 ** attempt` after the failed attempts, none after the last; RetryBackoff states it |
| Reports.QuotaPlaceholder | implementations/intelligent-scraper/v2/lib/report_generator.py:82-84 | the text stored for a section whose generation ran out of quota; ExhaustedQuotaText states when it is stored |
| ReportRun.ReportGenerator.constructor | implementations/intelligent-scraper/v2/lib/report_generator.py:31-40 | the generator starts on the configured model with the fallback list and index 0 |
| ReportRun.ReportGenerator.GetFallbackModel | implementations/intelligent-scraper/v2/lib/report_generator.py:365-376 | the method returns what `NextFallback` hands out and moves the index as it does, without switching the model |
| ReportRun.ReportGenerator.SwitchToFallback | implementations/intelligent-scraper/v2/lib/report_generator.py:327-339 | asking for a fallback and switching to it when one is handed out is `Switched` of the old run state |
| ReportRun.ReportGenerator.GenerateWithChunking | implementations/intelligent-scraper/v2/lib/report_generator.py:378-391 | the map calls over the 4000-character chunks followed by the reduce call, as `Chunked` |
| ReportRun.ReportGenerator.AttemptOnce | implementations/intelligent-scraper/v2/lib/report_generator.py:299-304 | the `try` body chooses chunking exactly for prompts over 8000 characters, as `Attempt` |
| ReportRun.ReportGenerator.OnQuota | implementations/intelligent-scraper/v2/lib/report_generator.py:306-345 | the quota `except` clause: wait, take a fallback on the last two attempts, and on the last one try the fallback once, as `QuotaStep` |
| ReportRun.ReportGenerator.AttemptStepOnce | implementations/intelligent-scraper/v2/lib/report_generator.py:298-355 | one pass of the loop body is `AttemptStep` of the old run state |
| ReportRun.ReportGenerator.GenerateWithRetries | implementations/intelligent-scraper/v2/lib/report_generator.py:293-363 | the attempt loop and the exhaustion error are exactly `Retry`; the model in use stays legitimate and changes only to a fallback handed out during the call, never back to the primary |
| ReportRun.ReportGenerator.ExtractAndTrackCitations | implementations/intelligent-scraper/v2/lib/report_generator.py:262-291 | for each marker in order, the first excerpt whose title matches is cited; the ledger ends as `Tracked` and stays consistent |
| ReportRun.ReportGenerator.TrackCitation | implementations/intelligent-scraper/v2/lib/report_generator.py:281-286 | the inner loop cites the first matching excerpt and then stops |
| ReportRun.ReportGenerator.GenerateSection | implementations/intelligent-scraper/v2/lib/report_generator.py:195-212 | build the prompt, generate with three attempts, track the citations of the text, as `SectionOutcome` |
| ReportRun.ReportGenerator.GenerateAllSections | implementations/intelligent-scraper/v2/lib/report_generator.py:42-89 | `generate_all_sections` is the loop over the ten configured sections, as `SectionsFrom`; over the whole run the model changes only to fallbacks handed out, never back to the primary |
| ReportRun.ReportGenerator.GenerateEntry | implementations/intelligent-scraper/v2/lib/report_generator.py:57-87 | one loop body: the `try` block with its one-second pause after a generated section, or the error text from the `except` clause |
| ReportRun.ReportGenerator.Pause | implementations/intelligent-scraper/v2/lib/report_generator.py:78 | `time.sleep(1)` after a generated section, with the tracker left alone |
| ReportRun.ReportGenerator.GenerateSections | implementations/intelligent-scraper/v2/lib/report_generator.py:56-87 | the section loop over the given configs computes exactly `SectionsFrom`, and the model changes only to fallbacks handed out during the loop |
| ReportRun.ReportGenerator.GenerateNext | implementations/intelligent-scraper/v2/lib/report_generator.py:56-87 | section `k` followed by the rest of the loop is the loop from `k`, and section `k` changes the model only to a fallback it handed out |
| ReportRun.ReportGenerator.AddBibliography | implementations/intelligent-scraper/v2/lib/report_generator.py:540-585 | `_add_bibliography` appends exactly the bibliography of the tracker's cited papers to the story |
| ReportRun.ReportGenerator.SplitRefs | implementations/intelligent-scraper/v2/lib/report_generator.py:554-563 | the cited papers with a reference are split into downloaded and metadata-only groups, each in citation order |
| ReportRun.ReportGenerator.AddGroup | implementations/intelligent-scraper/v2/lib/report_generator.py:566-583 | a group is appended, with its heading, only when it has a reference |
| ReportRun.SectionOutcome | implementations/intelligent-scraper/v2/lib/report_generator.py:195-212 | a section's outcome keeps the ledger consistent |
| ReportRun.Jobs | implementations/intelligent-scraper/v2/lib/report_generator.py:54-56 | one job per configured section |
| ReportRun.JobAt | implementations/intelligent-scraper/v2/lib/report_generator.py:56-72 | job `k` is section `k` with its prompt |
| ReportRun.SectionStep | implementations/intelligent-scraper/v2/lib/report_generator.py:56-87 | a section's text goes into the sections dict, which gains its key at the end only when the key is new; the ledger stays consistent |
| ReportRun.Paused | implementations/intelligent-scraper/v2/lib/report_generator.py:74-78 | a generated section adds exactly one one-second sleep, a failed one none, and nothing else changes |
| ReportRun.SectionsFrom | implementations/intelligent-scraper/v2/lib/report_generator.py:56-87 | the loop keeps the sections dict well-formed and the ledger consistent |
| ReportRun.SectionsStep | implementations/intelligent-scraper/v2/lib/report_generator.py:56-87 | the loop from section `k` is section `k` followed by the loop from `k + 1` |
| ReportRun.SectionStepKeeps | implementations/intelligent-scraper/v2/lib/report_generator.py:56-87 | a section keeps the model in use legitimate and changes it only to a fallback handed out during the section |
| ReportRun.SectionsKeys | implementations/intelligent-scraper/v2/lib/report_generator.py:53-89 | new distinct section keys join the dict in the order of their jobs |
| ReportRun.ConfiguredKeys | implementations/intelligent-scraper/v2/lib/report_generator.py:91-144 | the jobs of the ten configured sections carry the ten distinct section keys |
| ReportRun.AllSectionsKeys | implementations/intelligent-scraper/v2/lib/report_generator.py:42-89 | `generate_all_sections` returns exactly the ten configured keys, in configuration order, whatever fails |
| ReportRun.OutcomeLedger | implementations/intelligent-scraper/v2/lib/report_generator.py:195-212 | a section keeps the references and every other section's list, and gains exactly the registered papers its markers resolve to; a failed section cites nothing |
| ReportRun.SectionsLedger | implementations/intelligent-scraper/v2/lib/report_generator.py:42-89 | the whole loop keeps the references, and a section without a job keeps its list |
| ReportRun.OutcomeQuota | implementations/intelligent-scraper/v2/lib/report_generator.py:306-363 | under a constant quota error a section ends with the exhaustion error after two waits and cites nothing |
| ReportRun.SectionQuota | implementations/intelligent-scraper/v2/lib/report_generator.py:80-84 | such a section gets the quota placeholder, the ledger is untouched, and only the two waits are added |
| ReportRun.SectionsQuota | implementations/intelligent-scraper/v2/lib/report_generator.py:56-87 | under a constant quota error every job's key holds its placeholder and every other key keeps its text |
| ReportRun.SectionsQuotaLedger | implementations/intelligent-scraper/v2/lib/report_generator.py:56-87 | under a constant quota error the loop cites nothing |
| ReportRun.SectionsQuotaWaits | implementations/intelligent-scraper/v2/lib/report_generator.py:56-87 | under a constant quota error each section adds two waits of `d` and no one-second pause |
| ReportRun.MetadataEntry | implementations/intelligent-scraper/v2/lib/report_generator.py:581 | a metadata-only entry is the plain entry followed by the metadata note |
| ReportRun.RefsWith | implementations/intelligent-scraper/v2/lib/report_generator.py:557-563 | the selected references are registered ones with the asked download status, no more than the ids |
| ReportRun.EntryLines | implementations/intelligent-scraper/v2/lib/report_generator.py:570-573 | each entry gives its paragraph followed by a small spacer |
| ReportRun.EntryLinesStep | implementations/intelligent-scraper/v2/lib/report_generator.py:570-573 | one more entry appends its paragraph and spacer at the end |
| ReportRun.Entries | implementations/intelligent-scraper/v2/lib/report_generator.py:570-583 | one entry per reference, plain for downloaded papers and with the note otherwise |
| ReportRun.RefsPartition | implementations/intelligent-scraper/v2/lib/report_generator.py:557-563 | papers with a reference fall into exactly one of the two groups |
| ReportRun.RefsMember | implementations/intelligent-scraper/v2/lib/report_generator.py:557-563 | a paper with a reference is listed in the group of its download status |
| ReportRun.EntryInLines | implementations/intelligent-scraper/v2/lib/report_generator.py:570-583 | an entry's paragraph is among its group's lines |
| ReportRun.BibliographyLists | implementations/intelligent-scraper/v2/lib/report_generator.py:540-585 | every paper `get_all_papers` reports gets its entry, plain when downloaded and with the metadata note otherwise |
| ReportRun.BibliographyLength | implementations/intelligent-scraper/v2/lib/report_generator.py:540-585 | the bibliography's size: title and spacer, then the no-citations note alone, or two flowables per cited paper and two per non-empty group |
| ReportRun.ReportGenerator.Config | implementations/intelligent-scraper/v2/lib/report_generator.py:31-40 | the respond function, fallback models and quota delay the generator was built with |
| ReportRun.ReportGenerator.Run | implementations/intelligent-scraper/v2/lib/report_generator.py:293-363 | the state the retry loop reads and changes: the model name, the fallback index and the service's record; GenerateWithRetries ties it to Retry |
| ReportRun.BibEntry | implementations/intelligent-scraper/v2/lib/report_generator.py:571 | the entry of a downloaded paper: authors, title and year, each closed by a full stop |
| ReportRun.RefGroup | implementations/intelligent-scraper/v2/lib/report_generator.py:566-583 | a bibliography group: nothing without entries, else its heading, a spacer and its entry lines |
| ReportRun.BibliographyOf | implementations/intelligent-scraper/v2/lib/report_generator.py:540-585 | the title, then the no-citation note or the downloaded and metadata-only groups; BibliographyLists and BibliographyLength state it |
| ScrapeServer.RStrip | implementations/deployments/intelligent-scraper-v3-render-deployment/server.py:50 | trailing slashes stripped: a prefix of the path, ending in something else, with only slashes cut |
| ScrapeServer.NoSlash | implementations/deployments/intelligent-scraper-v3-render-deployment/server.py:50-51 | a non-empty digit string has no slash |
| ScrapeServer.DigitsNoSlash | implementations/deployments/intelligent-scraper-v3-render-deployment/server.py:51 | the digits of an id have no slash |
| ScrapeServer.TailShorter | implementations/deployments/intelligent-scraper-v3-render-deployment/server.py:50-51 | a slash-free tail after a slash is no longer than any other tail after a slash |
| ScrapeServer.SameTail | implementations/deployments/intelligent-scraper-v3-render-deployment/server.py:50-51 | writing a path as something, a slash and a slash-free tail fixes the tail |
| ScrapeServer.LastPieceSuffix | implementations/deployments/intelligent-scraper-v3-render-deployment/server.py:50-51 | with two pieces or more, the path ends with the separator and the last piece |
| ScrapeServer.AuthorIdShape | implementations/deployments/intelligent-scraper-v3-render-deployment/server.py:48-56 | an accepted id is all digits, and it is what follows the last slash of the path once trailing slashes are stripped |
| ScrapeServer.LastPieceOf | implementations/deployments/intelligent-scraper-v3-render-deployment/server.py:50-51 | cutting at slashes a path ending in a slash and a slash-free tail gives two pieces or more, the last being the tail |
| ScrapeServer.AuthorIdFromShape | implementations/deployments/intelligent-scraper-v3-render-deployment/server.py:48-52 | conversely, a stripped path ending in a slash and a run of digits yields those digits |
| ScrapeServer.SegmentIdFromShape | implementations/deployments/intelligent-scraper-v3-render-deployment/server.py:50-52 | a path ending in a slash and digits has those digits as its last segment id |
| ScrapeServer.AuthorIdNeedsSlash | implementations/deployments/intelligent-scraper-v3-render-deployment/server.py:51-56 | a path without a slash once trailing slashes are gone is rejected with the ValueError message |
| ScrapeServer.AuthorIdExample | implementations/deployments/intelligent-scraper-v3-render-deployment/server.py:48-56 | the example path "/author/Name/1741101/" with a trailing slash is accepted with id "1741101" |
| ScrapeServer.StatusName | implementations/deployments/intelligent-scraper-v3-render-deployment/server.py:68-149 | each status has its own name |
| ScrapeServer.NewJob | implementations/deployments/intelligent-scraper-v3-render-deployment/server.py:67-74 | an accepted request's record is queued with "Request accepted", no stage, 0 percent, no result and no error |
| ScrapeServer.Clamp | implementations/deployments/intelligent-scraper-v3-render-deployment/server.py:101 | the reported percentage clamped into [0, 100] |
| ScrapeServer.RoundHalfEven | implementations/deployments/intelligent-scraper-v3-render-deployment/server.py:101 | Python's `round`: the nearest whole number, ties to the even one |
| ScrapeServer.RoundUnique | implementations/deployments/intelligent-scraper-v3-render-deployment/server.py:101 | only one whole number is that close with the tie to the even one |
| ScrapeServer.PercentValue | implementations/deployments/intelligent-scraper-v3-render-deployment/server.py:101 | the rounded clamped percentage is between 0 and 100, 0 for a negative report and 100 for one over 100 |
| ScrapeServer.Progress | implementations/deployments/intelligent-scraper-v3-render-deployment/server.py:99-103 | a progress report sets stage, rounded percentage and the message "stage… N% complete"; nothing else changes |
| ScrapeServer.Progressed | implementations/deployments/intelligent-scraper-v3-render-deployment/server.py:99-103 | reports applied in order never change status, result or error |
| ScrapeServer.ProgressedLast | implementations/deployments/intelligent-scraper-v3-render-deployment/server.py:99-103 | after at least one report the record shows the last one |
| ScrapeServer.ProgressedValid | implementations/deployments/intelligent-scraper-v3-render-deployment/server.py:99-103 | progress reports keep a valid running record valid |
| ScrapeServer.Start | implementations/deployments/intelligent-scraper-v3-render-deployment/server.py:105-107 | the running record: status running, "Fetching data…", 5 percent, the rest unchanged |
| ScrapeServer.Finish | implementations/deployments/intelligent-scraper-v3-render-deployment/server.py:121-152 | no papers: failed with its message and 100 percent; papers: completed with the result, its links and stage "Completed"; an exception: failed with the error text and 100 percent |
| ScrapeServer.RunJobEnds | implementations/deployments/intelligent-scraper-v3-render-deployment/server.py:96-152 | an accepted job ends completed with its result or failed at 100 percent; the error is recorded exactly when the scrape raised, and it is left running only when the setup raised |
| ScrapeServer.Server.constructor | implementations/deployments/intelligent-scraper-v3-render-deployment/server.py:45 | the jobs dict starts empty |
| ScrapeServer.Server.StartScrape | implementations/deployments/intelligent-scraper-v3-render-deployment/server.py:59-85 | a bad profile path is a 400 with the ValueError message and creates no job; otherwise the queued record is stored under the fresh id, which is returned |
| ScrapeServer.Server.ScrapeStatus | implementations/deployments/intelligent-scraper-v3-render-deployment/server.py:88-93 | the record of a known job, and 404 "Job not found" exactly for an unknown id |
| ScrapeServer.Server.RunScrapeJob | implementations/deployments/intelligent-scraper-v3-render-deployment/server.py:96-152 | the record is marked running, each progress report is written into it as it arrives, and the outcome settles it; no other job changes, and a valid dict stays valid when the job had no result and no error yet |
| ScrapeServer.Server.ReportProgress | implementations/deployments/intelligent-scraper-v3-render-deployment/server.py:99-103 | the progress calls, each written into the one record; a valid dict stays valid when that record is running |
| ScrapeServer.RunKeepsValid | implementations/deployments/intelligent-scraper-v3-render-deployment/server.py:96-152 | running a job that has no result and no error yet, as every accepted job, keeps the jobs dict valid |
| ScrapeServer.ExtractAuthorId | implementations/deployments/intelligent-scraper-v3-render-deployment/server.py:48-56 | the last '/'-separated segment of the path once trailing slashes are removed when there are two segments or more and it is all digits, else the ValueError; AuthorIdShape, AuthorIdFromShape and AuthorIdNeedsSlash state it |
| ScrapeServer.RunJob | implementations/deployments/intelligent-scraper-v3-render-deployment/server.py:96-152 | the whole life of a record under `run_scrape_job`: started, then progressed by each report, then finished by the outcome; RunJobEnds and RunKeepsValid state it |
| ContentSynthesizer.AttemptFacts | implementations/intelligent-scraper/v1/processors/content_synthesizer.py:317-334 | one attempt makes at least one call and no sleep; a prompt of at most 8000 characters is sent unchanged in exactly one call; a returned text answers its last call, and a raised exception is the last call's |
| Provider.ChunkCount | implementations/intelligent-scraper/v1/processors/content_synthesizer.py:318-319 | a prompt over 8000 characters makes `ceil(len / 4000)` chunks |
| Provider.AnsweredPhase | implementations/intelligent-scraper/v1/processors/content_synthesizer.py:321-324 | when no call raises, the map phase calls the model on each chunk in order and collects the answers |
| ContentSynthesizer.LongAttempt | implementations/intelligent-scraper/v1/processors/content_synthesizer.py:318-331 | a long prompt whose calls are all answered makes `ceil(len / 4000)` calls on the chunks in order, then one reduce call on the joined answers, whose answer is the result: `ceil(len/4000)+1` calls |
| ContentSynthesizer.GenerationFails | implementations/intelligent-scraper/v1/processors/content_synthesizer.py:314-339 | failing generation raises the RuntimeError after every attempt failed, sleeping after each one, the last one too, with the backoff doubling from 2 |
| ContentSynthesizer.GenerationSucceeds | implementations/intelligent-scraper/v1/processors/content_synthesizer.py:314-339 | successful generation returns the answer to the last call, after one doubling-backoff sleep per failed attempt, so fewer sleeps than attempts allowed |
| ContentSynthesizer.GenerationCalls | implementations/intelligent-scraper/v1/processors/content_synthesizer.py:311-339 | generation only adds to the call log |
| ContentSynthesizer.ShortGeneration | implementations/intelligent-scraper/v1/processors/content_synthesizer.py:332-334 | for a prompt of at most 8000 characters every attempt is one call on the prompt itself |
| ContentSynthesizer.GenerationAlwaysFails | implementations/intelligent-scraper/v1/processors/content_synthesizer.py:314-339 | when every call raises, generation fails after `max_retries` calls and as many sleeps |
| ContentSynthesizer.AlwaysFailingAttempt | implementations/intelligent-scraper/v1/processors/content_synthesizer.py:317-336 | when every call raises `e`, an attempt makes exactly one call and fails with `e`, even for a chunked prompt, whose first chunk already fails |
| ContentSynthesizer.AlwaysAnswered | implementations/intelligent-scraper/v1/processors/content_synthesizer.py:314-334 | when no call raises the first attempt succeeds and generation never sleeps |
| ContentSynthesizer.TitleFrom | implementations/intelligent-scraper/v1/processors/content_synthesizer.py:379 | `str.title()` on ASCII keeps the length and non-letters, capitalises a letter after a non-letter and lowers it after a letter |
| ContentSynthesizer.SectionValueFacts | implementations/intelligent-scraper/v1/processors/content_synthesizer.py:35-44 | a section whose generation succeeded holds the text; otherwise it slept 2, 4, 8, 16 and 32 seconds, then made the fallback call, and holds its answer or the pending text |
| ContentSynthesizer.SynthesisPrompts | implementations/intelligent-scraper/v1/processors/content_synthesizer.py:23-31 | one prompt per section key, in the dict's order |
| ContentSynthesizer.FillKeys | implementations/intelligent-scraper/v1/processors/content_synthesizer.py:33-37 | storing under keys not yet present appends them in order |
| ContentSynthesizer.SectionKeysDistinct | implementations/intelligent-scraper/v1/processors/content_synthesizer.py:23-31 | the seven section keys are distinct |
| ContentSynthesizer.ProfileKeys | implementations/intelligent-scraper/v1/processors/content_synthesizer.py:19-46 | the profile has exactly the seven section keys, in order, whatever the service does |
| ContentSynthesizer.FillAllSame | implementations/intelligent-scraper/v1/processors/content_synthesizer.py:35-44 | when every iteration stores the same value, every key holds it and other entries stay |
| ContentSynthesizer.FillAllCost | implementations/intelligent-scraper/v1/processors/content_synthesizer.py:35-44 | when every iteration makes the same calls and sleeps, the loop makes them once per key |
| ContentSynthesizer.SectionAllFail | implementations/intelligent-scraper/v1/processors/content_synthesizer.py:35-44 | when every call raises, a section makes six calls (five attempts and the fallback), sleeps five times and holds the pending text |
| ContentSynthesizer.ProfileAllFail | implementations/intelligent-scraper/v1/processors/content_synthesizer.py:19-46 | when every call raises, all seven sections hold the pending text after 42 calls and 35 sleeps |
| ContentSynthesizer.FillAnswered | implementations/intelligent-scraper/v1/processors/content_synthesizer.py:35-44 | with such a step every stored value is the pending text or a text the service answered |
| ContentSynthesizer.SectionAnswered | implementations/intelligent-scraper/v1/processors/content_synthesizer.py:35-44 | a section's value is the pending text or the answer to its last call |
| ContentSynthesizer.ProfileAnswered | implementations/intelligent-scraper/v1/processors/content_synthesizer.py:19-46 | every profile value is the pending text or one of the service's answers |
| ContentSynthesizer.KeptLinesFacts | implementations/intelligent-scraper/v1/processors/content_synthesizer.py:271 | the kept lines are exactly the non-blank lines, stripped: each non-empty with no whitespace at either end, no more of them than lines |
| ContentSynthesizer.LinesResultFacts | implementations/intelligent-scraper/v1/processors/content_synthesizer.py:269-275 | at most `max` lines, each a stripped non-blank line of the text, the first `max` in order; nothing when generation failed |
| ContentSynthesizer.SummaryFallbackFacts | implementations/intelligent-scraper/v1/processors/content_synthesizer.py:288-290 | the fallback summary is the content when it fits, else its first `max_length` characters followed by "...", never more than three over |
| ContentSynthesizer.Hits | implementations/intelligent-scraper/v1/processors/content_synthesizer.py:114 | the hit count is at most the number of keywords |
| ContentSynthesizer.HitsDominate | implementations/intelligent-scraper/v1/processors/content_synthesizer.py:110-116 | one keyword hit outweighs any citation count below 1000 |
| ContentSynthesizer.CuratedFacts | implementations/intelligent-scraper/v1/processors/content_synthesizer.py:117 | the curated list holds the first 25 publications by score, or all of them, drawn from the input, in non-increasing score order |
| ContentSynthesizer.CuratedTop | implementations/intelligent-scraper/v1/processors/content_synthesizer.py:117 | every publication left out scores no higher than any kept one |
| ContentSynthesizer.CuratedStable | implementations/intelligent-scraper/v1/processors/content_synthesizer.py:117 | publications with equal scores keep their input order |
| ContentSynthesizer.CuratedLines | implementations/intelligent-scraper/v1/processors/content_synthesizer.py:118-121 | one line per curated publication, in order |
| ContentSynthesizer.CuratedBlockFacts | implementations/intelligent-scraper/v1/processors/content_synthesizer.py:122 | the placeholder appears exactly when there are no publications; otherwise the block opens with the best one's line |
| ContentSynthesizer.GeminiSynthesizer.constructor | implementations/intelligent-scraper/v1/processors/content_synthesizer.py:12-17 | the synthesizer holds the service and the configured model |
| ContentSynthesizer.GeminiSynthesizer.AttemptOnce | implementations/intelligent-scraper/v1/processors/content_synthesizer.py:317-334 | the `try` body of one attempt is `Attempt` |
| ContentSynthesizer.GeminiSynthesizer.GenerateWithChunking | implementations/intelligent-scraper/v1/processors/content_synthesizer.py:311-339 | the retry loop with doubling backoff is exactly `Generation` |
| ContentSynthesizer.GeminiSynthesizer.FallbackSection | implementations/intelligent-scraper/v1/processors/content_synthesizer.py:371-384 | `_fallback_section` is one call on the section's prompt, its answer or the pending text |
| ContentSynthesizer.GeminiSynthesizer.SynthesizeSection | implementations/intelligent-scraper/v1/processors/content_synthesizer.py:36-44 | one loop iteration is `SectionValue` |
| ContentSynthesizer.GeminiSynthesizer.SynthesizePersonProfile | implementations/intelligent-scraper/v1/processors/content_synthesizer.py:19-46 | `synthesize_person_profile` is `Profile` over the seven prompts; the identical copy is implementations/intelligent_data_scraper/processors/content_synthesizer.py:19-46 |
| ContentSynthesizer.GeminiSynthesizer.SynthesizeSections | implementations/intelligent-scraper/v1/processors/content_synthesizer.py:33-46 | the loop over the prompt dict is `Profile` |
| ContentSynthesizer.GeminiSynthesizer.ExtractKeyInsights | implementations/intelligent-scraper/v1/processors/content_synthesizer.py:258-275 | the insights are the kept lines of the generated text, at most `max_insights`, or none when generation failed |
| ContentSynthesizer.GeminiSynthesizer.SummarizeContent | implementations/intelligent-scraper/v1/processors/content_synthesizer.py:277-290 | the summary is the generated text, or the truncated content when generation failed |
| ContentSynthesizer.GeminiSynthesizer.GenerateQuotes | implementations/intelligent-scraper/v1/processors/content_synthesizer.py:292-309 | the quotes are the kept lines of the generated text, at most `max_quotes`, or none |
| ContentSynthesizer.ReducePrompt | implementations/intelligent-scraper/v1/processors/content_synthesizer.py:326-330 | the reduce prompt: the fixed preamble, then the partial answers separated by blank lines |
| ContentSynthesizer.Attempt | implementations/intelligent-scraper/v1/processors/content_synthesizer.py:317-334 | one attempt's `try` body, the map-reduce for a prompt over 8000 characters and one call otherwise; AttemptFacts and LongAttempt state its calls and result |
| ContentSynthesizer.Generation | implementations/intelligent-scraper/v1/processors/content_synthesizer.py:311-339 | the retry loop, sleeping 2, 4, 8, ... seconds after each failure and raising once every attempt failed; GenerationFails and GenerationSucceeds state it |
| ContentSynthesizer.FallbackHint | implementations/intelligent-scraper/v1/processors/content_synthesizer.py:373-378 | the outline of three known sections, the default hint for any other |
| ContentSynthesizer.Title | implementations/intelligent-scraper/v1/processors/content_synthesizer.py:379 | `str.title()`, on the ASCII range; TitleFrom states it letter by letter |
| ContentSynthesizer.FallbackPrompt | implementations/intelligent-scraper/v1/processors/content_synthesizer.py:379 | the fallback prompt: the section name with '_' as ' ' in title case, then its hint |
| ContentSynthesizer.Fallback | implementations/intelligent-scraper/v1/processors/content_synthesizer.py:371-384 | one call on the fallback prompt, whose answer or the pending text is the section |
| ContentSynthesizer.SectionValue | implementations/intelligent-scraper/v1/processors/content_synthesizer.py:36-44 | a section is its generated text, or the fallback when generation failed; SectionValueFacts states it |
| ContentSynthesizer.Fill | implementations/intelligent-scraper/v1/processors/content_synthesizer.py:35-44 | the loop over the prompt dict storing each section; FillKeys, FillAllSame and FillAnswered state it |
| ContentSynthesizer.Profile | implementations/intelligent-scraper/v1/processors/content_synthesizer.py:19-46 | `synthesize_person_profile` over the seven section prompts; ProfileKeys, ProfileAllFail and ProfileAnswered state it |
| ContentSynthesizer.InsightsPrompt | implementations/intelligent-scraper/v1/processors/content_synthesizer.py:260-267 | the prompt of `extract_key_insights`: the count asked for, the content, and the one-per-line instruction |
| ContentSynthesizer.SummaryPrompt | implementations/intelligent-scraper/v1/processors/content_synthesizer.py:279-284 | the prompt of `summarize_content`: the word count asked for and the content |
| ContentSynthesizer.QuotesPrompt | implementations/intelligent-scraper/v1/processors/content_synthesizer.py:294-300 | the prompt of `generate_quotes`: the count asked for and `str(data)` |
| ContentSynthesizer.KeptLines | implementations/intelligent-scraper/v1/processors/content_synthesizer.py:271 | the stripped non-blank lines, in order; KeptLinesFacts states it |
| ContentSynthesizer.Score | implementations/intelligent-scraper/v1/processors/content_synthesizer.py:110-116 | `score_pub`: 1000 per keyword the title, venue or abstract mentions, plus the citations; HitsDominate states the ordering |
| ContentSynthesizer.Curated | implementations/intelligent-scraper/v1/processors/content_synthesizer.py:117 | the 25 best-scoring publications, stable among equals; CuratedFacts, CuratedTop and CuratedStable state it |
| ContentSynthesizer.CuratedBlock | implementations/intelligent-scraper/v1/processors/content_synthesizer.py:118-122 | the curated lines joined by newlines, or the placeholder when there are none; CuratedBlockFacts states it |
| ContentSynthesizer.ExpertisePrompt | implementations/intelligent-scraper/v1/processors/content_synthesizer.py:104-146 | `_create_expertise_prompt`: the curated block and the concept outline inside the fixed frame |
| UniversityScraper.Confidence | implementations/intelligent_data_scraper/scrapers/university_scraper.py:112-141 | 0.4 for the name in the title, 0.2 in the snippet, 0.2 for an academic keyword, 0.1 for a department keyword; the increments add up to 0.9, so the cap never binds |
| UniversityScraper.Tenths | implementations/intelligent_data_scraper/scrapers/university_scraper.py:119-139 | the sum is at most 0.9, at least 0.4 with the name in the title, 0.6 or more only with it, and odd in tenths exactly when a department keyword occurs |
| UniversityScraper.FindKeyword | implementations/intelligent_data_scraper/scrapers/university_scraper.py:128-139 | a keyword loop is true at the first keyword found in the title or the snippet |
| UniversityScraper.CalculateConfidence | implementations/intelligent_data_scraper/scrapers/university_scraper.py:112-141 | the accumulator, the two keyword loops and the cap compute the score |
| UniversityScraper.DdgTarget | implementations/intelligent_data_scraper/scrapers/university_scraper.py:54-62 | a DuckDuckGo redirect link is replaced by its decoded `uddg` value when that is non-empty; any other link is kept |
| UniversityScraper.SearchDuckDuckGo | implementations/intelligent_data_scraper/scrapers/university_scraper.py:42-78 | no page gives nothing; otherwise one candidate for each of the first five links, tagged with the domain |
| UniversityScraper.Absolute | implementations/intelligent_data_scraper/scrapers/university_scraper.py:96-97 | a protocol-relative Bing link gets the https scheme; others are kept |
| UniversityScraper.BingCandidates | implementations/intelligent_data_scraper/scrapers/university_scraper.py:89-107 | the candidates of the Bing items that have a link, tagged with the domain |
| UniversityScraper.SearchBing | implementations/intelligent_data_scraper/scrapers/university_scraper.py:80-110 | no page gives nothing; otherwise at most five candidates from the first five items, skipping those without a link |
| UniversityScraper.SearchPerson | implementations/intelligent_data_scraper/scrapers/university_scraper.py:15-40 | for each of the seven domains in turn, its DuckDuckGo results, and Bing's only when DuckDuckGo found nothing |
| UniversityScraper.SearchDomains | implementations/intelligent_data_scraper/scrapers/university_scraper.py:25-38 | the domain loop computes the results and the domains Bing was asked about |
| UniversityScraper.PrefixStep | implementations/intelligent_data_scraper/scrapers/university_scraper.py:25-38 | one more domain adds its results and, when DuckDuckGo found nothing, its Bing query |
| UniversityScraper.BingOnlyAfterEmpty | implementations/intelligent_data_scraper/scrapers/university_scraper.py:31-34 | Bing is asked about a domain exactly when DuckDuckGo found nothing there |
| UniversityScraper.ResultsBounded | implementations/intelligent_data_scraper/scrapers/university_scraper.py:25-40 | each domain contributes at most five candidates, all tagged with that domain |
| UniversityScraper.FirstSelected | implementations/intelligent_data_scraper/scrapers/university_scraper.py:174-179 | the element of the first selector that finds one; none exactly when no selector does |
| UniversityScraper.FirstSelectedIs | implementations/intelligent_data_scraper/scrapers/university_scraper.py:174-179 | what is found is what the first finding selector finds, no earlier selector finding anything |
| UniversityScraper.SelectFirst | implementations/intelligent_data_scraper/scrapers/university_scraper.py:174-179 | a selector loop with `break` finds the first selector's element |
| UniversityScraper.SplitSeps | implementations/intelligent_data_scraper/scrapers/university_scraper.py:207 | splitting on commas and semicolons gives at least one piece and no piece holds a separator |
| UniversityScraper.SepIndex | implementations/intelligent_data_scraper/scrapers/university_scraper.py:207 | the position of the first separator at or after `i`, or the end |
| UniversityScraper.LongPieces | implementations/intelligent_data_scraper/scrapers/university_scraper.py:207-208 | the stripped pieces of more than three characters, in order |
| UniversityScraper.Interests | implementations/intelligent_data_scraper/scrapers/university_scraper.py:201-209 | at most ten research interests, each a stripped piece of more than three characters without a separator |
| UniversityScraper.NonEmptyTexts | implementations/intelligent_data_scraper/scrapers/university_scraper.py:217-220 | the non-empty stripped item texts, in order |
| UniversityScraper.Kept | implementations/intelligent_data_scraper/scrapers/university_scraper.py:218-220 | one item contributes its stripped text exactly when that is non-empty |
| UniversityScraper.NonEmptyTextsSnoc | implementations/intelligent_data_scraper/scrapers/university_scraper.py:217-220 | one more item appends at most its own text |
| UniversityScraper.CollectItems | implementations/intelligent_data_scraper/scrapers/university_scraper.py:216-220 | an item loop collects the non-empty stripped texts of the first `limit` items |
| UniversityScraper.ListOf | implementations/intelligent_data_scraper/scrapers/university_scraper.py:212-221 | a list field is empty when no selector finds an element, and otherwise at most `limit` non-empty texts |
| UniversityScraper.TextOf | implementations/intelligent_data_scraper/scrapers/university_scraper.py:174-179 | a text field is '' when no selector finds an element, and otherwise a stripped text |
| UniversityScraper.ProfileOf | implementations/intelligent_data_scraper/scrapers/university_scraper.py:157-253 | the identity fields come from the search candidate, the contact fields from the two regex matches, the office stays empty, and each other field from its selectors |
| UniversityScraper.ListSection | implementations/intelligent_data_scraper/scrapers/university_scraper.py:224-233 | one list-field loop of the scrape computes its field |
| UniversityScraper.TextSection | implementations/intelligent_data_scraper/scrapers/university_scraper.py:248-253 | one text-field loop of the scrape computes its field |
| UniversityScraper.ScrapePerson | implementations/intelligent_data_scraper/scrapers/university_scraper.py:143-255 | as intended: no URL or no page gives the empty result; otherwise the profile of the page |
| UniversityScraper.ScrapePersonAsWritten | implementations/intelligent_data_scraper/scrapers/university_scraper.py:143-259 | as written: the module never imports `re`, so every fetched page raises at the email search and ends as the empty result |
| UniversityScraper.MissingImportFinding | implementations/intelligent_data_scraper/scrapers/university_scraper.py:189-193 | every fetched page with a URL, whose intended result is its profile, ends as the empty result as written |
| WikipediaScraper.Confidence | implementations/intelligent_data_scraper/scrapers/wikipedia_scraper.py:55-79 | 0.4 for the name in the title, 0.3 for the exact title, 0.2 for the name in the snippet, 0.1 for over 1000 words; an exact title scores at least 0.7 and a score of 0.7 or more needs the name in the title |
| WikipediaScraper.ContainsSelf | implementations/intelligent_data_scraper/scrapers/wikipedia_scraper.py:63-67 | an exact title also contains the name |
| WikipediaScraper.CapNeverBinds | implementations/intelligent_data_scraper/scrapers/wikipedia_scraper.py:79 | the increments add up to exactly 1.0, so the cap never changes a score |
| WikipediaScraper.CalculateConfidence | implementations/intelligent_data_scraper/scrapers/wikipedia_scraper.py:55-79 | the accumulator and the cap compute the score; the identical copy is intelligent-scraper/v1/scrapers/wikipedia_scraper.py:55-79 |
| WikipediaScraper.SearchPerson | implementations/intelligent_data_scraper/scrapers/wikipedia_scraper.py:16-53 | a failed request gives no candidates; otherwise one candidate per search result, in order, with its fields and its score |
| WikipediaScraper.PageQuery | implementations/intelligent_data_scraper/scrapers/wikipedia_scraper.py:83-114 | no query exactly when neither a page id nor a title is truthy; by page id when there is one, by title otherwise |
| WikipediaScraper.FirstMatching | implementations/intelligent_data_scraper/scrapers/wikipedia_scraper.py:166-174 | the first pattern that matches, with none before it matching; none exactly when no pattern matches |
| WikipediaScraper.FirstQualifying | implementations/intelligent_data_scraper/scrapers/wikipedia_scraper.py:183-189 | the first occupation pattern whose match gives a plausible occupation, with none before it qualifying |
| WikipediaScraper.FindBirth | implementations/intelligent_data_scraper/scrapers/wikipedia_scraper.py:159-174 | the birth-pattern loop takes date and place from the first pattern that matches |
| WikipediaScraper.FindOccupation | implementations/intelligent_data_scraper/scrapers/wikipedia_scraper.py:176-189 | the occupation loop takes the first plausible stripped group |
| WikipediaScraper.FindEducation | implementations/intelligent_data_scraper/scrapers/wikipedia_scraper.py:191-206 | the education loop takes the first pattern that matches, "X from Y" for two groups |
| WikipediaScraper.ExtractStructuredInfo | implementations/intelligent_data_scraper/scrapers/wikipedia_scraper.py:147-213 | the info starts with None scalars and empty lists and is filled by the three pattern loops and the quotes; the identical copy is intelligent-scraper/v1/scrapers/wikipedia_scraper.py:147-213 |
| WikipediaScraper.OccupationFacts | implementations/intelligent_data_scraper/scrapers/wikipedia_scraper.py:183-189 | an occupation, when found, is the stripped group of the first plausible match and has 11 to 99 characters; it is missing exactly when no pattern yields a plausible one |
| WikipediaScraper.BirthFacts | implementations/intelligent_data_scraper/scrapers/wikipedia_scraper.py:166-174 | birth data comes from the first birth pattern that matches: both groups when it has two, the date alone otherwise; with no match both stay None |
| WikipediaScraper.FirstMatchingIs | implementations/intelligent_data_scraper/scrapers/wikipedia_scraper.py:166-174 | the first match is at `k` when `k` matches and nothing before it does |
| WikipediaScraper.StructuredInfoDefaults | implementations/intelligent_data_scraper/scrapers/wikipedia_scraper.py:149-211 | awards and notable works stay empty, no match leaves the scalars None, and there are at most five quotes of 20 to 200 characters without quote marks |
| WikipediaScraper.ScrapePerson | implementations/intelligent_data_scraper/scrapers/wikipedia_scraper.py:81-145 | neither id nor title, a failed request or an empty page list each give the empty result; otherwise the first page with its structured information; the identical copy is intelligent-scraper/v1/scrapers/wikipedia_scraper.py:81-145 |
| NewsScraper.SearchNewsApi | implementations/intelligent_data_scraper/scrapers/news_scraper.py:120-124 | with no NewsAPI key configured the search yields no candidates; NewsScraper.SearchPersonRanked relies on this to rank only the Google and Bing hits |
| NewsScraper.SearchPerson | implementations/intelligent_data_scraper/scrapers/news_scraper.py:16-36 | the Google, Bing and NewsAPI candidates concatenated, de-duplicated by URL and sorted by score; NewsScraper.SearchPersonRanked and NewsScraper.SearchPersonUrls state what that means |
| Citations.SectionPapers | intelligent-scraper/v2/lib/citation_tracker.py:74-76 | `get_section_papers`: the list of paper ids cited in a section, empty for a section never cited; Citations.CiteEffect and Citations.CitedIff state how citing changes it |
| Citations.AllSections | intelligent-scraper/v2/lib/citation_tracker.py:82-84 | `get_all_sections`: the sections with citations in first-citation order; Citations.GetStatistics counts the papers of each |
| Citations.AllPapers | intelligent-scraper/v2/lib/citation_tracker.py:86-88 | `get_all_papers`: the cited paper ids in first-citation order; Citations.AllPapersRegistered states that each is registered, cited and listed once |
| Citations.PaperRef | intelligent-scraper/v2/lib/citation_tracker.py:90-92 | `get_paper_ref`: the stored reference for a registered id and None for any other; Citations.InlineCitation states the marker it yields |
| Citations.DownloadedIds | intelligent-scraper/v2/lib/citation_tracker.py:94-111 | the registered ids whose reference is downloaded; with Citations.MetadataOnlyIds it partitions the registered ids, which Citations.GetStatistics states as downloaded plus metadata-only equals total |
| Citations.MetadataOnlyIds | intelligent-scraper/v2/lib/citation_tracker.py:94-111 | the registered ids whose reference is not downloaded, the complement of Citations.DownloadedIds among the registered ids |
| Reports.SectionConfigs | implementations/intelligent-scraper/v2/lib/report_generator.py:91-144 | `_get_section_configs`: the ten sections with their titles, lengths and focus texts in dict order; Reports.SectionKeysFacts states that their keys are distinct |
| Reports.Richness | implementations/intelligent-scraper/v2/lib/report_generator.py:163 | the sort key of a downloaded paper, its number of key points plus the length of the first 500 characters of its text; Reports.RichestFirst and Reports.IncludedFacts rank by it |
| Reports.Impact | implementations/intelligent-scraper/v2/lib/report_generator.py:170 | the sort key of a metadata-only paper, its citation count; Reports.IncludedFacts ranks the metadata part by it |
| Reports.RichestDownloaded | implementations/intelligent-scraper/v2/lib/report_generator.py:157-165 | the downloaded part of the pick, the first 15 downloaded papers by richness; Reports.RichestFirst states that a downloaded paper left out is no richer than any kept |
| Reports.ToExcerpt | implementations/intelligent-scraper/v2/lib/report_generator.py:180-190 | the excerpt dict of one paper: id, title, authors and year, the abstract cut at 500 characters, the first 10 key points and 5 methodologies, and whether the text was downloaded; Reports.ExcerptsOfFacts states it for stored papers |
| Reports.StatusTag | implementations/intelligent-scraper/v2/lib/report_generator.py:222 | "[DOWNLOADED]" for a downloaded excerpt and "[METADATA ONLY]" otherwise, as Reports.PaperEntry prints it |
| Reports.PointLines | implementations/intelligent-scraper/v2/lib/report_generator.py:229-231 | one indented bullet line for each key point, as Reports.PaperEntry prints the first five |
| Reports.Requirements | implementations/intelligent-scraper/v2/lib/report_generator.py:242-255 | the fixed block of eight citation rules, the example paragraph and the closing reminder, which Reports.SectionPrompt puts after the paper list |
| Reports.Markers | implementations/intelligent-scraper/v2/lib/report_generator.py:271-274 | `re.findall` of the citation pattern over the whole text; Reports.MarkerOf and Reports.FormatCitationScans state what it finds in the tracker's own markers |
| Reports.TitlesMatch | implementations/intelligent-scraper/v2/lib/report_generator.py:282 | a cited title matches an excerpt when either title contains the other; Reports.FirstMatch finds the first such excerpt |
| Reports.ReducePrompt | implementations/intelligent-scraper/v2/lib/report_generator.py:389 | the reduce call's prompt: the fixed heading and the chunk answers joined by the separator line; Reports.LongAttempt states that the last call of a long attempt is made on it |
| Reports.AttemptStep | implementations/intelligent-scraper/v2/lib/report_generator.py:298-355 | one pass of the retry loop body: an answer ends the loop, a quota error goes to the quota branch, and any other error waits `2 ** attempt` seconds unless it is the last attempt; Reports.StepModel, Reports.StepRecord, Reports.StepAnswered and Reports.BackoffAttempts state it |
| Reports.QuotaStep | implementations/intelligent-scraper/v2/lib/report_generator.py:306-345 | the quota branch: the wait read from the message, a fallback taken before the last attempt, and on the last attempt one more direct call with the fallback; Reports.QuotaStepWaits and Reports.QuotaAttempts state it |
| Reports.Loop | implementations/intelligent-scraper/v2/lib/report_generator.py:297-363 | `for attempt in range(max_retries)` from an attempt on, ending with the "Generation failed after N retries" error once every attempt has gone on; Reports.LoopExhausts, Reports.LoopWaits and Reports.LoopOneCallEach state it |
| Reports.BackoffWait | implementations/intelligent-scraper/v2/lib/report_generator.py:352-355 | the wait after a failed non-quota attempt, `2 ** attempt` seconds and none after the last attempt; Reports.RetryBackoff states the waits it gives |
| Reports.QuotaWait | implementations/intelligent-scraper/v2/lib/report_generator.py:323-325 | the wait after a quota error, the delay read from the message and none after the last attempt; Reports.QuotaWaitsRepeat and Reports.RetryQuotaWaits state the waits it gives |
| ContentSynthesizer.MapReduce | implementations/intelligent-scraper/v1/processors/content_synthesizer.py:318-330 | the map-reduce branch for a long prompt: one call per 4000-character chunk and one call on the joined answers; ContentSynthesizer.AttemptFacts and ContentSynthesizer.LongAttempt state its calls and result |
| ContentSynthesizer.Backoff | implementations/intelligent-scraper/v1/processors/content_synthesizer.py:335-338 | the sleep after a failed attempt, starting at 2 seconds and doubling each time; ContentSynthesizer.GenerationFails and ContentSynthesizer.GenerationAlwaysFails state the sleeps it gives |
| ContentSynthesizer.LinesResult | implementations/intelligent-scraper/v1/processors/content_synthesizer.py:269-275 | the value of `extract_key_insights` and `generate_quotes` for a generation outcome, the first lines kept or `[]` on failure; ContentSynthesizer.LinesResultFacts states it |
| ContentSynthesizer.SummaryFallback | implementations/intelligent-scraper/v1/processors/content_synthesizer.py:290 | the `except` value of `summarize_content`, the content cut to `max_length` characters plus "..." when longer; ContentSynthesizer.SummaryFallbackFacts states it |
| ContentSynthesizer.SummaryResult | implementations/intelligent-scraper/v1/processors/content_synthesizer.py:286-290 | the value of `summarize_content` for a generation outcome, the generated text or the fallback summary; ContentSynthesizer.GeminiSynthesizer.SummarizeContent returns it |
| ContentSynthesizer.Mentions | implementations/intelligent-scraper/v1/processors/content_synthesizer.py:114 | a keyword counts for a publication when it occurs in the lower-cased title, venue or abstract; ContentSynthesizer.Hits counts these and ContentSynthesizer.HitsDominate ranks by them |
| ContentSynthesizer.CuratedLine | implementations/intelligent-scraper/v1/processors/content_synthesizer.py:119 | one curated line: the stripped title, year, venue and citation count separated by vertical bars; ContentSynthesizer.CuratedBlockFacts states the block built from these lines |
| PaperDownloader.IsArxivId | implementations/intelligent_data_scraper/processors/paper_downloader.py:167 | the shape the pattern's group accepts: digits, a dot, digits, and optionally `v` and digits; PaperDownloader.SearchFindsId and PaperDownloader.MatchIsId state that every identifier read has this shape |
| PaperDownloader.MatchAt | implementations/intelligent_data_scraper/processors/paper_downloader.py:167 | the pattern tried at one position: `arxiv.org/abs/` or `arxiv.org/pdf/` there, followed by an identifier; PaperDownloader.SearchFrom takes the leftmost position where it matches |
| PaperDownloader.ArxivLink | implementations/intelligent_data_scraper/processors/paper_downloader.py:145-148 | the arXiv branch of the candidate URLs is taken when the URL mentions "arxiv" in any case and an identifier can be read from it; PaperDownloader.GeneratePdfUrls states the URL it then adds |
| PaperDownloader.SourceName | implementations/intelligent_data_scraper/processors/paper_downloader.py:229-235 | the key of each of the five buckets of the `sources` dict |
| PaperDownloader.Bucket | implementations/intelligent_data_scraper/processors/paper_downloader.py:229-249 | the list of one bucket; PaperDownloader.BucketsPartition and PaperDownloader.BucketsCount state that the buckets split the papers between them |
| PaperDownloader.MentionsPublisher | implementations/intelligent_data_scraper/processors/paper_downloader.py:246 | the lower-cased URL contains one of "ieee", "acm", "springer", "elsevier" or "wiley"; PaperDownloader.SourceOf states that the publisher bucket is chosen only then |
| PdfGenerator.IsNumberedLine | implementations/intelligent_data_scraper/processors/pdf_generator.py:589 | a line counts toward a numbered list when it is blank or starts with optional whitespace, digits, a dot and whitespace; PdfGenerator.KindOfMeans and PdfGenerator.NumberedBlock state how blocks are classified by it |
| PdfGenerator.Lines | implementations/intelligent_data_scraper/processors/pdf_generator.py:578 | the lines of a block, split at each newline; PdfGenerator.KindOfMeans states the classification made on them |
| PdfGenerator.Label | implementations/intelligent_data_scraper/processors/pdf_generator.py:492-508 | the dict key written for each basic-information field, which PdfGenerator.Rows puts in the first column of the table |
| PdfGenerator.WikiScholarOrder | implementations/intelligent_data_scraper/processors/pdf_generator.py:491-502 | the keys the Wikipedia and Scholar parts set, in the order they first set them; PdfGenerator.WikiScholarKeys and PdfGenerator.WikiScholarOrderFacts state it |
| PdfGenerator.ScholarStep | implementations/intelligent_data_scraper/processors/pdf_generator.py:496-502 | the Scholar part: the name only where no full name is set, then the affiliation and the first five interests joined by ", "; PdfGenerator.ScholarStepKeys and PdfGenerator.ScholarStepValues state it |
| PdfGenerator.LinkedInStep | implementations/intelligent_data_scraper/processors/pdf_generator.py:504-508 | the LinkedIn part: the title only where no occupation is set, then the company; PdfGenerator.LinkedInStepKeys and PdfGenerator.LinkedInStepValues state it |
| PdfGenerator.TitleHead | implementations/intelligent_data_scraper/processors/pdf_generator.py:178-187 | the title page's opening flowables: the title, the person's name and the subtitle, each followed by its spacer; PdfGenerator.TitlePageTable and PdfGenerator.TitlePageNone state the page built from it |
| PdfGenerator.TitleTail | implementations/intelligent_data_scraper/processors/pdf_generator.py:196-206 | the closing flowables: the generation date, a spacer and the disclaimer paragraph, whose line breaks the paragraph renders as spaces; PdfGenerator.TitlePageTable and PdfGenerator.TitlePageNone state the page built from it |
| PdfGenerator.Story | implementations/intelligent_data_scraper/processors/pdf_generator.py:190-194 | the story with the info table and its spacer between head and tail only when there is a table; PdfGenerator.StoryCorrected and PdfGenerator.StoryTable state it |
| PersonSearcher.NameMatches | implementations/intelligent-scraper/v2/lib/person_searcher.py:388 | an author matches when some word of the cleaned name longer than two characters occurs in the lower-cased author; PersonSearcher.FirstMatchFacts states the position found with it |
| PersonSearcher.FirstMatch | implementations/intelligent-scraper/v2/lib/person_searcher.py:384-391 | the 1-based position of the first matching author from an index on, or -1; PersonSearcher.FirstMatchFacts states it |
| PersonSearcher.FirstWhere | implementations/intelligent-scraper/v2/lib/person_searcher.py:384-391 | the 1-based position of the first element from an index on that satisfies a test, or -1; PersonSearcher.FirstWhereFacts states both outcomes |
| PublicationsEnricher.FillableFields | implementations/intelligent_data_scraper/processors/publications_enricher.py:133 | the eight fields a later duplicate may fill in, in the order the merge visits them; PublicationsEnricher.FillFromFacts and PublicationsEnricher.InsertKeeps state that no other field is touched |
| PublicationsEnricher.FillFrom | implementations/intelligent_data_scraper/processors/publications_enricher.py:133-135 | copying each listed field that is falsy in the kept record and truthy in the duplicate; PublicationsEnricher.FillFromFacts states both what is filled and what is kept |
| PublicationsEnricher.ValuesInOrder | implementations/intelligent_data_scraper/processors/publications_enricher.py:136 | `list(by_key.values())`: the kept records in first-occurrence order of their keys; PublicationsEnricher.MergeKeysFirstOccurrence states that order |
| PublicationsEnricher.FirstOrEmpty | implementations/intelligent_data_scraper/processors/publications_enricher.py:54 | `(xs or [""])[0]`: the first element of a list, or the empty string for an empty list; PublicationsEnricher.CrossrefRecords builds titles and venues with it |
| PublicationsEnricher.AuthorNames | implementations/intelligent_data_scraper/processors/publications_enricher.py:62 | the author names of a Crossref item, given and family name stripped, which the record joins with ", " |
| PublicationsEnricher.AuthorNamesFacts | implementations/intelligent_data_scraper/processors/publications_enricher.py:62 | one name per author, in order, each the given and family names joined by a space and stripped |
| GoogleScholarScraper.BibField | intelligent-scraper/v1/scrapers/google_scholar_scraper.py:131-141 | `pub.get('bib', {}).get(key, '')`: a bib field, or the empty string when it is missing; GoogleScholarScraper.ExtractDefaults states the defaults it gives |
| GoogleScholarScraper.AsClientRecord | intelligent-scraper/v1/scrapers/google_scholar_scraper.py:130-142 | the client record that carries exactly the fields of a flattened publication, so GoogleScholarScraper.ExtractRoundTrip can state that flattening reads every field from where the client keeps it |
| GoogleScholarScraper.Keeps | intelligent-scraper/v1/scrapers/google_scholar_scraper.py:172-175 | no author filter, or an empty one, keeps every publication; otherwise the lower-cased name must occur in the lower-cased author string; GoogleScholarScraper.AuthorMatches, GoogleScholarScraper.TopicPapersUnfiltered and GoogleScholarScraper.TopicPapersFiltered state it |
| InformationScraper.TypeOf | implementations/intelligent_data_scraper/main.py:248 | a cached row's `data_type`, or "unknown" when it is missing; InformationScraper.GroupedContents and InformationScraper.GroupedKeys state the grouping by it |
| InformationScraper.ContentOf | implementations/intelligent_data_scraper/main.py:249 | a cached row's `content`, or the empty string when it is missing; InformationScraper.GroupedContents states that each type maps to these contents in row order |
| InformationScraper.SampleOf | implementations/intelligent_data_scraper/main.py:317-326 | what one `(source, field)` pair contributes: the elements of a list, a string itself, or nothing for a missing source, a missing field or any other value; InformationScraper.SamplesReadOnly and InformationScraper.NoSamples state the samples built from it |
| UniversityScraper.IsRedirect | implementations/intelligent_data_scraper/scrapers/university_scraper.py:56 | a DuckDuckGo redirect link starts with `/l/?uddg=` or contains `duckduckgo.com/l/?uddg=`; UniversityScraper.DdgTarget states that only such links are replaced by their decoded target |
| UniversityScraper.DomainResults | implementations/intelligent_data_scraper/scrapers/university_scraper.py:25-34 | the results for one domain: the DuckDuckGo results, or the Bing results when DuckDuckGo found none; UniversityScraper.BingOnlyAfterEmpty and UniversityScraper.PrefixStep state it |
| UniversityScraper.AllResults | implementations/intelligent_data_scraper/scrapers/university_scraper.py:24-38 | the results of the domains in order, concatenated; UniversityScraper.SearchDomains computes it and UniversityScraper.ResultsBounded bounds its size |
| WikipediaScraper.Plausible | implementations/intelligent_data_scraper/scrapers/wikipedia_scraper.py:187 | an occupation is kept when its stripped length is strictly between 10 and 100 characters; WikipediaScraper.OccupationFacts states that the stored occupation is the first plausible one |
| ScrapeServer.LastSegmentId | implementations/deployments/intelligent-scraper-v3-render-deployment/server.py:49-52 | the segment test on the path after trailing slashes are removed: at least two segments and a last one made of digits gives that segment, anything else the error; ScrapeServer.SegmentIdFromShape and ScrapeServer.AuthorIdNeedsSlash state it |
| ScrapeServer.HtmlName | implementations/deployments/intelligent-scraper-v3-render-deployment/server.py:110 | the HTML file name built from the author id and the timestamp, which ScrapeServer.Finish stores in a completed job's result |
| ScrapeServer.DebugName | implementations/deployments/intelligent-scraper-v3-render-deployment/server.py:111 | the debug file name built from the author id and the timestamp, which ScrapeServer.Finish stores in a completed job's result |
| ReportRun.Groups | implementations/intelligent-scraper/v2/lib/report_generator.py:565-583 | the downloaded group and then the metadata-only group, each with its heading only when it has entries; ReportRun.BibliographyLists and ReportRun.BibliographyLength state it |
| Checklist.Failing | intelligent-scraper/v2/lib/checklist_generator.py:237-240 | the papers whose download result is not a success, in order; Checklist.FailingIsPick and Checklist.FailingEmpty state it and Checklist.Undownloaded computes it |
| Checklist.Line | intelligent-scraper/v2/lib/checklist_generator.py:255-256 | one line of the numbered list: the number, a dot and a space, then the title; Checklist.NumberedLines states the list built from it |
| ContentAnalyzer.AnalyzePaperAsWritten | implementations/intelligent-scraper/v2/lib/content_analyzer.py:81-112 | `analyze_paper` as written: the same entry as ContentAnalyzer.AnalyzePaper except that its methodologies are the distinct values `re.findall` returns, group 1 of the grouped pattern included |

## Left out

- Network access is not modelled: requests, the search engines, the Wikipedia, Crossref and Semantic Scholar APIs, `scholarly` and the HTTP session. What they return is an input of the model.
- BeautifulSoup is not modelled: the elements a selector finds are given as inputs.
- PyMuPDF (`fitz`) is not modelled: the text extracted from a PDF is given as an input.
- `urllib.parse` is not modelled: the path of a URL and the decoded redirect target are given as inputs.
- The generative-model client (`genai.GenerativeModel`) is replaced by a service whose answers are given. The parsing of a response object is not modelled beyond the text of an answer.
- `time.sleep` is not modelled as waiting: each call appends its delay to a log. The rate-limiter decorators are left out for the same reason.
- The clock, `uuid` and `datetime` are not modelled: the job id, timestamps and dates are parameters.
- asyncio scheduling and the sharing of a job record between the request handler and the background task are not modelled: each job record is one value in the `jobs` dictionary.
- File writes are not modelled. This covers the checklist's HTML and CSV files, the debug and HTML reports, the ZIP archive (only its entry names are kept) and the saved PDF.
- `_create_metadata_content` is left out of paper_downloader.py because it stamps the current time. The ZIP path is not modelled.
- The sqlite cache database (cache_manager.py) is not modelled: the cache is a lookup function, and stored rows are the values handed to it.
- The layout of reportlab flowables is not modelled: flowables are values. The orchestration of `generate_pdf`, the table of contents, the appendix and `doc.build` are left out.
- The text analyzer (text_analyzer.py) is not modelled: it depends on NLTK tokenizers, the POS tagger and VADER, and its results are float ratios.
- These regular expressions are not interpreted, and what they match is an input:
  - Wikipedia's birth, occupation and education patterns;
  - the analyzer's abstract-heading, section-heading, bullet and methodology-keyword patterns;
  - the email and phone patterns of the university scraper.
- The iteration order of Python sets is given as a parameter. This affects the analyzer's methodology list and the news `sources` list.
- Text.Lower: lowercases only ASCII letters, whereas Python's `str.lower` also lowercases the rest of Unicode.
- Text.IsDigits: accepts only the ASCII digits, whereas `\d` and `str.isdigit` accept every Unicode decimal digit.
- ContentAnalyzer.AnalyzePaper: stores the intended methodologies, the keywords matched as whole words. The entry as written, with the values `re.findall` returns, is ContentAnalyzer.AnalyzePaperAsWritten (see Findings).
- PaperDownloader.IsWordChar: reads `\w` as the ASCII letters, digits and `_`, whereas Python's str patterns also match non-ASCII letters and digits. `\s` is modelled with Python's full whitespace set.
- PaperDownloader.DigitsEnd: reads `\d` in the arXiv id pattern as the ASCII digits, whereas Python's str patterns also match other Unicode decimal digits. PaperDownloader.IdAt inherits this.
- Reports.IsDigitOrDot: reads `[\d.]` with ASCII digits only, for the reason given for PaperDownloader.DigitsEnd.
- PersonSearcher.PyRepr: quotes every string with single quotes and escapes nothing, whereas Python switches to double quotes for a string holding a single quote and escapes backslashes and non-printable characters.
- PublicationsEnricher.MergeKey: keys are strings, so a string DOI "1" shares a key with the integer 1 or with True, which Python keeps apart.
- PersonSearcher.FetchWithFallback: two records or more with a citation value that is not an integer (or a boolean) make the model's sort raise. Python raises only for a pair it cannot compare, so citation values that are all strings sort without error there. The enricher gives only integers or None here.
- PersonSearcher.TopPubs: what `scholarly.fill` answers for a publication is an input, and may report a different `num_citations` from the listing. PersonSearcher.ScholarIdPapersByCitations therefore assumes the two counts agree.
- ReportRun.ReportGenerator.constructor: the ValueError raised when `GEMINI_API_KEY` is not set is not modelled, and neither is `genai.configure`. The key is taken as configured.
- ContentSynthesizer.GeminiSynthesizer.constructor: the ValueError for a missing `GEMINI_API_KEY` is not modelled, for the reason given for ReportRun.ReportGenerator.constructor.
- ContentSynthesizer.Score: publications are typed records with an integer citation count and a string title. `int(p.get('citations') or 0)` on a numeric string, the ValueError for a non-numeric one, and the AttributeError `.strip()` raises for a None title are not modelled.
- ContentSynthesizer.GeminiSynthesizer.ExtractKeyInsights: `max_insights` is a nat. A negative value, with which Python's `insights[:max_insights]` drops lines from the end, is not modelled.
- ContentSynthesizer.GeminiSynthesizer.SummarizeContent: `max_length` is a nat. A negative value, with which Python's fallback `content[:max_length] + "..."` cuts characters from the end, is not modelled.
- ContentSynthesizer.GeminiSynthesizer.GenerateQuotes: `max_quotes` is a nat. A negative value, with which Python's `quotes[:max_quotes]` drops lines from the end, is not modelled.
- PublicationsEnricher.EnrichByAuthor: `max_results` is a nat. A negative value, which Python would read as a slice from the end, is not modelled.
- InformationScraper.CombinedConfidence: takes the mean confidence of a source group floored to whole hundredths, whereas the source uses a float mean.
- InformationScraper.RankCandidates: ranks by the integer combined confidence, so candidates whose float scores differ in a digit the integers drop count as tied.
- ScrapeServer.PercentValue: reads the scraper's float percentage in hundredths of a percent, and does not model float rounding.
- PaperDownloader.Estimated: computes `int(count * rate)` with the rate exact in percent, whereas the source multiplies by a binary float.
- The `max_papers` range validation of the server's request model (pydantic) is not modelled: its value is taken as given.
- PdfGenerator.TitlePage: the title page's disclaimer keeps its words but writes them on one line. The source's triple-quoted string carries line breaks and indentation, which reportlab renders as single spaces.
- These helpers of base_scraper.py are not modelled, because they only wrap `urlparse`, `urljoin` and the clock: `is_valid_url`, `normalize_url`, `extract_domain` and `extract_metadata`.
- The news scraper's `_search_newsapi` always returns the empty list, and it is modelled as that constant.
- The candidate dictionaries that main.py updates in place are modelled as values: the ranked list is a new list of updated records. Aliasing between the input and the output objects is not modelled.
- The config files contribute only constants, which are declared with the same values: the fallback models, the quota retry delay, `MAX_RETRIES`, `MAX_CONTENT_LENGTH`, `MAX_ARTICLES` and `MAX_PAPERS`.
- The FastAPI routing and the HTTP encoding of responses are not modelled: a request handler returns a status code and a record.

## Findings

| source | as written | input that shows it | evidently intended | confidence | as-written member | corrected member |
|---|---|---|---|---|---|---|
| implementations/intelligent_data_scraper/scrapers/university_scraper.py:190-193 | the module (imports at lines 1-5) calls `re.search` without importing `re`, so every fetched page raises NameError and the handler returns `{}` | any URL whose page is fetched, e.g. a page containing an email address | the profile read from the page: email, phone, research interests, education, publications and courses | not executed | UniversityScraper.ScrapePersonAsWritten, UniversityScraper.MissingImportFinding | UniversityScraper.ScrapePerson, UniversityScraper.ProfileOf |
| implementations/intelligent_data_scraper/processors/pdf_generator.py:189-193 | `_create_title_page` appends the result of `_create_info_table` (lines 512-520) without a None check, and gets None when every basic-information value is empty | a Wikipedia record with an empty title and an empty occupation, and no other source | the info table is appended only when there is one | not executed | PdfGenerator.TitlePageAsWritten, PdfGenerator.TitlePageNone, PdfGenerator.EmptyWikipediaBreaksTitlePage | PdfGenerator.TitlePage, PdfGenerator.TitlePageCorrected, PdfGenerator.TitlePageTable |
| implementations/intelligent-scraper/v2/lib/content_analyzer.py:186-199 | the pattern `experiment(al)?` has a capture group, so `re.findall` returns that group: '' for "experiment" and "al" for "experimental" | a paper whose text mentions "experimental" and no other methodology keyword | the whole match, as for the other keyword patterns | not executed | ContentAnalyzer.MethodologiesAsWritten, ContentAnalyzer.AnalyzePaperAsWritten, ContentAnalyzer.ExperimentalGroupFinding | ContentAnalyzer.Methodologies, ContentAnalyzer.ExtractMethodologies, ContentAnalyzer.AnalyzePaper |
