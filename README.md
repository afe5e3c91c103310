# Pastor Tara sermon bot — a verified model of its deterministic core

The system is a Telegram bot that recommends sermons. A scraper reads the pastor's
Telegram channels. It keeps the messages that look like teachings, asks a language
model for a title, description and theme, stores them in SQLite and indexes them in a
vector store. The bot answers a topic by searching that index and letting the model
rank the hits. It then shows them in pages of five behind "more".

This project models the code around the model and the index, and proves what that
code promises:

- **Ranking** (`Ranking`, utils.py): the reordering of candidates by the model's index
  list, duplicate links dropped, the first-ten fallback, the similarity-threshold
  fallback, and the per-(user, query hash) cache.
- **Cache** (`Cache`, utils.py): the time-to-live store with lazy eviction.
- **Intent** (`Intent`, utils.py): the count a message asks for.
- **Bot** (`Bot`, telegram_bot.py):
  - the session map behind "more";
  - the `/recommend` argument parser and the dispatch of plain messages;
  - the caption of one sermon;
  - pagination.
- **Ingestion helpers** (`Ingest`, `Filename`, rag_ingest.py): the teaching filter, the
  message link, the clean-up of the model's JSON answer, the fallback metadata, the
  documents for the index, and the `"Title [link] [image.jpg].ext"` filename parser.
- **Store** (`Store`, db_handler.py): the `sermons` table. It is an upsert-keyed table
  with INSERT OR REPLACE, lookup, channel filter, date order, count and delete-all.

Everything outside the program is a parameter:

- The language model's reply is an `Option<string>`; `None` means the call raised.
- `json.loads` is a function to `Option<…>`; `None` means it raised or produced
  something the code cannot use.
- The MD5 hex digest is a function parameter.
- The clock is an integer count of microseconds.
- The vector search results are a sequence of sermons.

Each Telegram reply becomes a returned `Reply` value.

Module layout:

- `Wrappers`: `Option`.
- `Text`: Python's `str` operations used by the code:
  - `split()`, `split(c)`, `strip()`, `rstrip(c)`, `lower()`, `upper()`;
  - `isdigit()`, `in`, `startswith`, `endswith`, `replace`;
  - slices clamped to the length.
- `Config`: the numeric settings.
- `Sermons`: the sermon dictionary as a record of optional fields.
- `Cache`, `Ranking`, `Intent`, `Bot`, `Ingest`, `Filename`, `Store`: the components above.

Behaviours of the code that the model keeps on purpose:

- After the first page, the session index is set to the requested count `num`
  (telegram_bot.py:198), not to the number of sermons shown.
- Each "more" moves the index on by exactly five, even when fewer sermons were left
  (telegram_bot.py:287). In the nine-sermon example the index ends at 10, not 9.
- A reply that is not bracketed, such as "not json", is not a failure. It ranks the
  first ten candidates in their own order (utils.py:153-157). Only a raising call or
  parse falls back to the similarity threshold.
- An out-of-range index in the model's list is skipped (utils.py:164). It does not
  trigger the fallback.

## Model

| member | source | states |
|---|---|---|
| Cache.CacheManager.Get | utils.py:249-270 | The read returns the value of a fresh entry; it returns None for a missing file, an unreadable file or an expired entry. An expired entry is deleted; nothing else changes. |
| Cache.CacheManager.Set | utils.py:272-283 | The key is overwritten with the value and an expiry of now plus six hours. |
| Cache.LookupMissing | utils.py:253-254 | A missing key reads as None and the read changes nothing. |
| Cache.ExpiredEvicted | utils.py:260-264 | Past its expiry an entry reads as None and is removed. A second read, at any instant, is None too. |
| Cache.FreshAtExpiry | utils.py:262-266 | The comparison is strict: at exactly the expiry instant the value is still returned and nothing is removed. |
| Cache.LookupAfterStore | utils.py:272-283 | After a write, the key reads back the written value exactly while now is at most write time plus the duration; after that it reads None. |
| Cache.OtherKeysUntouched | utils.py:249-283 | Reading or writing one key does not change what any other key reads. |
| Ranking.ThresholdFilter | utils.py:179-182 | The exception fallback keeps exactly the candidates whose score (0 when missing) is at least 0.7, in their original order (a subsequence). |
| Ranking.ThresholdExample | utils.py:182 | Scores 0.9, 0.5 and 0.8 keep the first and third candidates. |
| Ranking.SubsequenceMembers | utils.py:160-171 | A subsequence is no longer than the sequence and holds only its elements. |
| Ranking.Picked | utils.py:163-165 | The in-range candidates an index list points at, in list order, are candidates and no more numerous than the indexes. |
| Ranking.PickedRange | utils.py:157 | `range(m)` picks exactly the first m candidates. |
| Ranking.ReorderedProperties | utils.py:159-171 | A completed reordering has no two elements with one link. It is a subsequence of the picked candidates in index-list order, and it keeps every picked link. |
| Ranking.ReorderedKeepsFirst | utils.py:159-171 | Of several picked candidates sharing a link, the one kept is the first: each element of the result occurs in the picked list with no earlier picked element carrying its link. |
| Ranking.ReorderedFails | utils.py:166 | The loop raises exactly when some picked candidate has no `message_link`. |
| Ranking.ReorderedNoneStays | utils.py:163-171 | Once the loop raises on a prefix of the index list, the whole loop raises. |
| Ranking.ReorderedBounds | utils.py:160-171 | The output is no longer than the index list, nor than the number of distinct links among the candidates, and every element is a candidate. |
| Ranking.ReorderByIndexes | utils.py:159-171 | The loop with its `seen_links` set computes exactly the reordering fold. |
| Ranking.CacheKeyInjective | utils.py:121 | For digests of one length, equal cache keys mean the same user id and the same digest. |
| Ranking.UnbracketedReply | utils.py:153-157 | A reply that is not `[...]` ranks the first min(10, n) candidates: no duplicate links, in their own order, with every one of their links kept. |
| Ranking.RankEmpty | utils.py:117-118 | No candidates: the result is empty and the cache is neither read nor written. |
| Ranking.RankCacheHit | utils.py:121-125 | A fresh, non-empty cached list is returned unchanged, whatever the model or the parser would answer. |
| Ranking.RankFresh | utils.py:127-177 | On a miss, a completed ranking has distinct links and only candidates, and is no longer than the number of distinct links. The key reads it back until the duration runs out. |
| Ranking.RankFallback | utils.py:179-182 | On a miss, a raising try block yields the threshold filter, and the cache gets no new entry. |
| Ranking.TryRank | utils.py:127-171 | The try block returns the model ranking, or None exactly when the summaries, the call, the parse or the reordering raise. |
| Ranking.RecommendationEngine.RankSermons | utils.py:112-182 | One call returns the result, and leaves the cache, that the specification step RankStep gives. |
| Intent.RequestedCount | utils.py:223-227 | The count is at most 20. With no all-digit word it is the default 5. Otherwise it is min(value of the first all-digit word, 20), so "0" gives 0. |
| Intent.ExtractIntent | utils.py:217-233 | The topic is the whole message and the count is RequestedCount of its words. |
| Intent.NoNumberDefault | utils.py:223-227 | A message without an all-digit word asks for the default count. |
| Intent.RequestedCountExamples | utils.py:224-227 | "3" gives 3, "50" gives 20, "0" gives 0, and the first all-digit word wins. |
| Bot.ParseRecommendArgs | telegram_bot.py:112-120 | A final all-digit argument gives min(it, 20), and the argument list without it, joined by spaces, is the topic. Otherwise the whole list is the topic and the count is 5. |
| Bot.ParseRecommendRoundTrip | telegram_bot.py:112-120 | Topic words followed by a number read back as the same words and the capped number. |
| Bot.ParseRecommendNoCount | telegram_bot.py:119-120 | Without a final count, the topic splits back into the arguments and the count is the default. |
| Bot.ParseRecommendCountOnly | telegram_bot.py:116-118 | "/recommend 7" asks for seven with an empty topic. |
| Bot.MoreRequestPadded | telegram_bot.py:128-131 | " more\n" is a page request: surrounding whitespace is stripped. |
| Bot.MoreRequestUpper | telegram_bot.py:131 | "SHOW MORE" is a page request: case is ignored. |
| Bot.MoreRequestPadding | telegram_bot.py:128-131 | For every message, whitespace added on either side does not change whether it is a page request. |
| Bot.MoreRequestCase | telegram_bot.py:128-131 | For every pair of messages that differ only in the case of ASCII letters, both are page requests or neither is. |
| Bot.MoreRequestOtherWording | telegram_bot.py:131 | "more please" is not a page request. |
| Bot.CaptionShape | telegram_bot.py:244-258 | The caption starts with the bold title (default 'Untitled'), contains the description (default 'No description available') and ends with the link (default ''). |
| Bot.CaptionDefaults | telegram_bot.py:246-256 | A sermon with no title, description or link gets the caption built from 'Untitled', 'No description available' and an empty link. |
| Bot.MessageFor | telegram_bot.py:219-237 | A sermon is sent as a photo exactly when its image URL is non-empty; otherwise it is sent as text prefixed with the headphones sign. |
| Bot.MessagesFor | telegram_bot.py:219 | One message per sermon, in order. |
| Bot.RecommendShown | telegram_bot.py:181-203 | The first num ranked sermons are shown, and "want more" is offered exactly when more than num are ranked. The user's session becomes (ranked, num); other users' sessions are unchanged. |
| Bot.RecommendNothing | telegram_bot.py:159-178 | Nothing found and nothing relevant are two different answers, and neither changes a session. |
| Bot.NextBatch | telegram_bot.py:273 | The batch is `sermons[index:index+5]`: at most five, and empty exactly when the index is at or past the end. |
| Bot.MoreWithoutSession | telegram_bot.py:262-266 | Without a session the answer is "search first" and nothing changes. |
| Bot.MoreWithSession | telegram_bot.py:268-297 | At the end of the list the answer is "that's all" and the index is kept. Otherwise 1–5 sermons are shown, the index moves on by exactly 5, and "still more" is said exactly when the new index is below the length. |
| Bot.PagesPartition | telegram_bot.py:273-287 | Successive pages are contiguous and disjoint. Together they are exactly the rest of the list; each holds 1–5 sermons, and all but the last hold 5. |
| Bot.MoreAnswersPages | telegram_bot.py:260-297 | Each "more" answers the next page and leaves the remaining pages to later requests. |
| Bot.NineSermons | telegram_bot.py:181-297 | With nine ranked sermons and count 5: the first page has 5 with the hint, "more" shows the last 4 and leaves the index at 10, and the next "more" says "that's all". |
| Bot.PastorTaraBot.ProcessRecommendation | telegram_bot.py:143-210 | The sessions, the cache and the answer are those of RecommendOutcome over the ranking step. |
| Bot.PastorTaraBot.HandleMore | telegram_bot.py:260-297 | The answer and the sessions are those of MoreOutcome. |
| Bot.PastorTaraBot.RecommendCommand | telegram_bot.py:100-123 | No arguments asks for a topic and changes nothing. Otherwise the parsed topic and count go through the recommendation. |
| Bot.PastorTaraBot.HandleMessage | telegram_bot.py:125-141 | A stripped, lower-cased "more", "more sermons" or "show more" pages on and leaves the cache alone. Any other text is recommended on with the count RequestedCount of its words. |
| Ingest.KeywordCount | rag_ingest.py:101 | The keyword sum is at most the number of keywords. |
| Ingest.KeywordCountFound | rag_ingest.py:101 | The sum counts each keyword present at most once, however often it occurs. |
| Ingest.IsTeaching | rag_ingest.py:86-120 | A teaching has at least 100 characters and two keywords in the lower-cased text. Past those filters the answer is a teaching exactly when the upper-cased, stripped reply contains YES, or when the call raised. |
| Ingest.LowerCaseYes | rag_ingest.py:114-115 | The reply "yes." counts as YES. |
| Ingest.MessageLink | rag_ingest.py:126 | The link starts with `https://t.me/` and has no `@`. |
| Ingest.MessageLinkInjective | rag_ingest.py:126 | For channel names without `/`, the link determines the channel without its `@`s and the message id. |
| Ingest.Unfenced | rag_ingest.py:187-194 | The cleaned content has no surrounding whitespace. |
| Ingest.UnfencedJsonFence | rag_ingest.py:187-194 | A body wrapped as ```` ```json\n … \n``` ```` comes out as the body. |
| Ingest.UnfencedPlain | rag_ingest.py:187-194 | Stripped unfenced text that does not end in a backtick passes through unchanged. |
| Ingest.FromRaw | rag_ingest.py:198-202 | The fields are cut to 200, 1000 and 50 characters. The defaults are 'Untitled Sermon', the first 500 characters of the text, and 'General'. |
| Ingest.FirstNonBlank | rag_ingest.py:215-216 | The result is None exactly when every line is blank; otherwise it is a non-empty stripped string. |
| Ingest.FirstNonBlankIsFirst | rag_ingest.py:215-216 | When line i is non-blank and every earlier line is blank, the result is line i, stripped. |
| Ingest.FallbackTitle | rag_ingest.py:218-226 | The title has at most 200 characters and is 'Untitled Sermon' when every line is blank. |
| Ingest.FallbackTitleLine | rag_ingest.py:218-221 | A first non-blank line of at least 20 characters, or any first line of a text of at most 50, is the title, cut to 200. |
| Ingest.FallbackTitleSentence | rag_ingest.py:218-226 | A first non-blank line shorter than 20 in a text longer than 50 is replaced by the text before the first `.` (all of it when there is none), cut to 200. |
| Ingest.FallbackDescription | rag_ingest.py:229 | The description has at most 500 characters, no newline, and no surrounding whitespace. |
| Ingest.FirstTheme | rag_ingest.py:250-254 | The theme of the first table entry whose keyword occurs, or 'General' when none does. |
| Ingest.ThemeOrder | rag_ingest.py:233-254 | A text with "healing" and without "faith" gets Healing: the table's order decides. |
| Ingest.FallbackMetadata | rag_ingest.py:213-256 | All three fallback fields fit the cuts. |
| Ingest.FallbackExtractMetadata | rag_ingest.py:213-256 | The theme loop with `break` computes FirstTheme over the table. |
| Ingest.ModelMetadata | rag_ingest.py:162-211 | Whatever the reply and the parse, every field fits its cut. |
| Ingest.CleanContent | rag_ingest.py:187-194 | The rebinding of `content` computes Unfenced. |
| Ingest.ExtractMetadata | rag_ingest.py:162-211 | It parses the cleaned answer, and falls back when the call or the parse fails. |
| Ingest.ExtractSermonData | rag_ingest.py:122-156 | An already stored link gives None. Otherwise the record holds the metadata, the channel, the link, the image equal to the link exactly for photos, and the date. |
| Ingest.ToDocument | rag_ingest.py:285-300 | The page content is exactly the title, a blank line and the description. The metadata copies the seven fields, with theme default ''. |
| Ingest.DocumentTitle | rag_ingest.py:287 | The page content starts with the title and a blank line and ends with the description, so the title reads back from its start. |
| Ingest.SermonsToDocuments | rag_ingest.py:281-303 | One document per sermon, in order. |
| Filename.StripExtension | rag_ingest.py:434 | The result is a prefix of the name. When it is shorter, what was cut starts with `.` and contains no other `.` and no `/`. |
| Filename.StripExtensionCut | rag_ingest.py:434 | When the last `.` is in the final path component and a non-dot comes before it there, the name is cut at that `.`. |
| Filename.StripExtensionKeep | rag_ingest.py:434 | When no dot of the final path component follows a non-dot, the name is returned unchanged. Together with StripExtensionCut this covers every name. |
| Filename.StripExtensionExamples | rag_ingest.py:434 | "Faith.pdf" gives "Faith"; ".bashrc" and "v1.2/notes" are kept. |
| Filename.LinkAt | rag_ingest.py:438 | A link match is a `[`, the scheme `http://` or `https://`, a non-empty body without `]`, and the first `]` after it. |
| Filename.ImageAt | rag_ingest.py:445 | An image match is a `[`, then contents up to the first `]` that end, in any case, in .jpg, .jpeg, .png or .gif, with text before the dot. |
| Filename.ImageNameExamples | rag_ingest.py:445 | "cover.JPG" is an image name; ".png" is not. |
| Filename.FindLink | rag_ingest.py:438 | The scan finds the leftmost link match, or reports that there is none anywhere. |
| Filename.FindImage | rag_ingest.py:445 | The scan finds the leftmost image match, or reports that there is none anywhere. |
| Filename.TakeLink | rag_ingest.py:436-441 | The link is the body of the leftmost match, and the rest is the name with every copy of the match removed, stripped. With no match the name is unchanged. |
| Filename.TakeImage | rag_ingest.py:443-448 | The image is the contents of the leftmost image match, and the rest is the name with every copy removed, stripped. With no match the name is unchanged. |
| Filename.CleanTitle | rag_ingest.py:450-454 | The title is CleanedTitle of the name: every bracket deleted, then stripped, or 'Untitled Sermon' when that is empty. It is non-empty, stripped and bracket-free, and a bracket-free name gives its stripped self. |
| Filename.ParseFilename | rag_ingest.py:428-456 | The link is group 1 of the leftmost link match of the extension-less name, or None when nothing matches. Every copy of the match is removed and the result stripped. The image is taken the same way from what is left, using the leftmost image match. The title is that remainder with its brackets deleted and stripped, or "Untitled Sermon" when empty. So it is non-empty, trimmed and bracket-free. A name without brackets gives no link, no image and its stripped self as title. |
| Store.RowOf | db_handler.py:97-105 | Missing keys become '' for title, description, channel, link and theme, and NULL for image and date. |
| Store.WithoutLink | db_handler.py:93-96 | REPLACE keeps exactly the rows with another link, and keeps the table unchanged when the link is absent. |
| Store.FindByLink | db_handler.py:127-133 | The lookup returns a row with that link, and None exactly when no row has it. |
| Store.UpsertUnique | db_handler.py:40 | The upsert keeps links unique. |
| Store.UpsertKeepsSchema | db_handler.py:34-47 | An upsert with the next AUTOINCREMENT id keeps unique links and increasing ids below the new counter. |
| Store.UpsertCount | db_handler.py:93-105 | A new link adds one row; a stored link keeps the count. |
| Store.UpsertLookup | db_handler.py:93-105 | After an upsert the link reads back the new row, and every other link reads what it read before. |
| Store.UniqueFind | db_handler.py:127-128 | With unique links the lookup finds the row holding the link, wherever it is. |
| Store.CountIsLinks | db_handler.py:184-188 | With unique links the row count is the number of distinct links. |
| Store.TextLeTotal | db_handler.py:141 | The text order of SQLite's BINARY collation is total. |
| Store.TextLeTrans | db_handler.py:141 | The text order is transitive. |
| Store.InsertByDate | db_handler.py:141 | Inserting into a date-descending list keeps it date-descending and adds exactly the row. |
| Store.SortByDate | db_handler.py:141 | `ORDER BY date DESC` gives a date-descending (NULLs last) permutation of the table. |
| Store.OfChannel | db_handler.py:173 | Exactly the rows of the channel. |
| Store.SermonDatabase.AddSermon | db_handler.py:87-112 | The table becomes the upsert with the next id, which is returned; the schema's constraints still hold. |
| Store.SermonDatabase.GetSermonByLink | db_handler.py:121-133 | The row with that link, or None exactly when no row has it. |
| Store.SermonDatabase.GetAllSermons | db_handler.py:135-145 | Every row, exactly once each, newest date first and undated rows last. |
| Store.SermonDatabase.GetSermonsByChannel | db_handler.py:167-177 | Exactly the rows of the channel, newest date first. |
| Store.SermonDatabase.GetSermonCount | db_handler.py:179-188 | The count is the number of distinct stored links. |
| Store.SermonDatabase.DeleteAllSermons | db_handler.py:190-198 | The table is empty: the count is 0 and every lookup returns None. The AUTOINCREMENT counter is kept. |

## Left out

- Language-model and embedding calls, and the vector store: `llm.invoke`, the OpenAI
  embeddings and Chroma (`RAGEngine.add_documents`, `search`, `clear_all`). These are
  network services. Their answers are parameters.
- `ResponseGenerator.generate_response` and every prompt text. They only format text
  for the model and catch their own errors; the model treats the warm message as
  sent.
- The `1 - score` conversion in `RAGEngine.search`. It is floating point; a similarity
  score is an abstract real.
- `hashlib.md5`, `json.loads`, `json.dump`, `datetime.now` and `datetime.fromisoformat`.
  These are foreign library code: a digest function, parse functions and clock
  parameters stand for them.
- Cache file I/O. The directory is a map from key to file contents. A file that cannot
  be read or decoded is the `Unreadable` case.
- Cache.CacheManager.Set: a failed write is logged and ignored by the source. The model
  always writes.
- The cache holds only ranked lists here, because `rank_sermons` is its only user.
- Floating-point reals: `MIN_RELEVANCE_SCORE` is the exact real 0.7.
- Telegram transport: sending texts, photos and chat actions, the photo-to-text fallback
  when a photo fails, `setup_bot` and `error_handler`. The Telethon scraping loop is
  left out as well. All of these are asynchronous network I/O.
- Bot.PastorTaraBot.ProcessRecommendation: the source stores the session with index 0
  and then sets it to `num` after the messages are sent. The intermediate state is
  visible only when sending raises, and sending is not modelled.
- Bot.PastorTaraBot.ProcessRecommendation: the catch-all `except` of
  `_process_recommendation` is not modelled. Search and ranking catch their own errors,
  so only the transport can raise there.
- Bot.MessageFor: the photo-to-text fallback on a failed `reply_photo` is transport and
  is left out.
- File loading: `MaterialsLoader.load_all_materials`, `_load_txt`, `_load_docx`,
  `_load_pdf` and the text splitter. These are filesystem and third-party parsers.
- `SermonDatabase.search_sermons`: FTS5 relevance lives inside SQLite. The FTS
  triggers, connection handling and the two timestamp columns are left out too.
- Ties in `ORDER BY date DESC` are put in a fixed order here. SQLite leaves their order
  unspecified, so the model proves only the order and the permutation.
- Store.SermonDatabase.AddSermon: a title, description, channel or message_link key
  that is present with the value None would violate NOT NULL (db_handler.py:37-40),
  and the source returns None for it. Sermon records cannot represent "present but
  None", so this path is not modelled. The same value for image_url, date or theme
  would simply be stored as NULL. Other SQLite failures are not modelled either.
- Ingest.ModelMetadata: the parse oracle's None covers a JSON error, a non-object
  result and a field value that cannot be sliced (a number, null or an object). The
  source falls back in those cases. A list-valued field is a difference: the source
  slices the list (rag_ingest.py:198-202) and returns it without falling back, while
  the model has only string fields and treats it as a failed parse.
- Ingest.ExtractSermonData: a message without text, and the formatting of the date
  with `strftime`, are outside the model; the formatted date is a parameter.
- Ingest.SermonsToDocuments requires that each sermon has title, description, channel
  and link. The source raises KeyError otherwise; run_ingest.py:63-66 catches it, logs
  it and exits, so the ingestion run aborts. `_extract_sermon_data` always sets these
  four keys, which is why the requirement holds for the records it builds.
- Unicode: `lower()`, `upper()`, `isdigit()` and `re.IGNORECASE` are modelled on ASCII
  only. Non-ASCII letters and digits (such as Arabic-Indic digits) are not folded or
  recognised. Whitespace is not limited this way: `Text.IsSpace` is Python's full
  `str.isspace` set, which `split()` and `strip()` use. It covers U+001C–U+001F, U+0085,
  U+00A0, U+1680, U+2000–U+200A, U+2028, U+2029, U+202F, U+205F and U+3000 besides the
  ASCII ones.
- Ranking.RankCacheHit: a cached value comes back exactly as stored. JSON
  serialisation itself is not modelled.
- `main.py`, `config.py` environment loading, and the scripts `fix_vector_store.py`,
  `run_ingest.py`, `view_sermons.py` and `test_imports.py`: plumbing over the
  components above.
- Concurrency: same-user races on the cache and the sessions. The source has no locks,
  and the model is single-threaded.
