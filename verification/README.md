# KOL leaderboard scrapers: a Dafny model

This project models the deterministic core of two scrapers. Each one reads the key-opinion-leader (KOL) wallet leaderboard of a crypto-trading site for three windows: Daily, Weekly and Monthly. It then saves the rows to a database table.

- **gmgn** (`gmgn_scraper.py`) reads an HTML table.
  - Amounts such as `+1.5K` are normalised to numbers.
  - The time window is chosen by a selector that tries up to three times. An attempt counts only if it changes the page.
  - Each row becomes a record, and a row that raises is skipped.
  - Every record is upserted under the key `record.get('id', 0)`.
- **kolscan** (`kolscan_scraper.py`) does two things with each page:
  - It reads wallet social handles from the Next.js flight data pushed by inline scripts. The script texts are cleaned and concatenated, the `"initialData":` payload is cut out, its empty-string sentinels are rewritten, and a wallet → (telegram, twitter) lookup is built.
  - It turns each leaderboard user div into a record. Only a missing element skips a row; any other error fails the whole window.
  - The save step clears the table and then upserts every record keyed by wallet address.

In both scrapers the windows run in order, and a window that raises contributes nothing. The records of the successful windows are saved together.

The browser, the parsed HTML, `json.loads` and the database are abstracted as follows:
- **Page:** what a page offers is a datatype of optional fields (a missing element is `None`).
- **Selector:** what a click did is an observation given as input.
- **JSON:** the JSON decoder is a function parameter.
- **Store:** the table is a class holding a map, updated in place.

**Modules, by file:**

| File | Module | What it holds |
|---|---|---|
| `wrappers.dfy` | `Wrappers` | `Option` |
| `text.dfy` | `Text` | Python `str` operations: `in`, `find`, `replace`, `split`, `strip`, `rstrip` |
| `numbers.dfy` | `PyNumbers` | `float()` and `int()` on the decimal grammar, with exact decimals |
| `json.dfy` | `JsonValues` | decoded JSON values |
| `windows.dfy` | `Windows` | the three windows, their day counts, and filtering a list by period |
| `gmgn_normalizer.dfy` | `GmgnNormalizer` | the gmgn amount normaliser |
| `gmgn_selector.dfy` | `GmgnSelector` | the gmgn window selector |
| `gmgn_extractor.dfy` | `GmgnExtractor` | the gmgn row extractor |
| `gmgn_store.dfy` | `GmgnStore` | the gmgn save step |
| `gmgn_scraper.dfy` | `GmgnScraper` | the gmgn orchestrator |
| `kolscan_payload.dfy` | `KolscanPayload` | the kolscan payload builder |
| `kolscan_social.dfy` | `KolscanSocial` | the kolscan social lookup |
| `kolscan_extractor.dfy` | `KolscanExtractor` | the kolscan row extractor |
| `kolscan_store.dfy` | `KolscanStore` | the kolscan save step |
| `kolscan_scraper.dfy` | `KolscanScraper` | the kolscan selector and orchestrator |

**Behaviour worth noting:**
- **No data marker.** A kolscan page whose combined script text lacks `"initialData":` fails its whole window. The `split(...)[1]` at `kolscan_scraper.py:97` sits outside the `try`.
- **Row errors in kolscan.** Only `AttributeError` skips a kolscan row. A missing `href`, an `href` without `/account/`, or fewer than two `<p>`/`<h1>` texts all abort the window's extraction.
- **The percentage keeps its `+`.** The gmgn percentage drops only `%`, whitespace and `,`, so `+12.3%` becomes `+12.3`.
- **A malformed USD amount skips the row.** The gmgn amount is converted inside the row's `try`, so a malformed amount raises and the row is skipped. Only fewer than two PnL texts give the `'0'` fallback.

## Model

| member | source | states |
|---|---|---|
| GmgnNormalizer.ConvertToNumber | gmgn_scraper.py:57-68 | Every `+` is removed. If a `K` occurs anywhere, the result is the parse of the text without `+` and `K`, times 1000. Otherwise, if an `M` occurs, it is the parse without `+` and `M`, times 1,000,000. Otherwise it is the plain parse. A parse that raises gives `None`. |
| GmgnNormalizer.BothMultipliersFail | gmgn_scraper.py:62-66 | A text with both `K` and `M` never converts: the `K` branch leaves the `M` in the text `float()` sees. |
| GmgnNormalizer.PlusIsIgnored | gmgn_scraper.py:59 | A `+` anywhere in the text does not change the result. |
| GmgnNormalizer.TrailingKilo | gmgn_scraper.py:62-63 | A sign-free text followed by `K` converts to that text's parse times 1000. |
| GmgnNormalizer.TrailingMega | gmgn_scraper.py:65-66 | A text free of `+`, `K` and `M`, followed by `M`, converts to its parse times 1,000,000. |
| GmgnNormalizer.Thousands | gmgn_scraper.py:62-63 | A digit string followed by `K` is exactly that many thousands. |
| GmgnNormalizer.Millions | gmgn_scraper.py:65-66 | A digit string followed by `M` is exactly that many millions. |
| GmgnNormalizer.DecimalThousands | gmgn_scraper.py:62-63 | `whole.frac` followed by `K` is the exact decimal `whole.frac` times 1000. |
| PyNumbers.ParseFloat | gmgn_scraper.py:226 | `float()` of the empty text raises, and a negative result needs a `-` in the text. Its values are stated by `ParseFloatOfDecimal` and `DecimalMeaning`, and its alphabet by `ParseFloatChars`. |
| PyNumbers.ParseFloatChars | gmgn_scraper.py:63-68 | Any text `float()` accepts consists only of digits, a point, signs and whitespace. |
| PyNumbers.ParseFloatOfDecimal | gmgn_scraper.py:68 | `float()` of `whole.frac` is the decimal with the digits `whole frac` at the scale given by the length of `frac`. |
| PyNumbers.DecimalMeaning | gmgn_scraper.py:68 | That decimal's value is `whole` plus `frac` divided by ten to the length of `frac`. |
| PyNumbers.ParseInt | gmgn_scraper.py:229-230 | `int()` of the empty text raises, and a negative result needs a `-` in the text. Its values are stated by `ParseIntOfDigits` and `ParseIntOfNegative`. |
| PyNumbers.ParseIntOfDigits | gmgn_scraper.py:229-230 | `int()` of a digit string is its decimal value. |
| PyNumbers.ParseIntOfNegative | gmgn_scraper.py:229-230 | `int()` of `-` followed by a digit string is minus its decimal value. |
| Windows.PeriodRoundTrip | gmgn_scraper.py:142 | Window → period → window is the identity, and a stored period identifies its window. |
| Windows.Index | gmgn_scraper.py:142-143 | A window's index is its position in the order Daily, Weekly, Monthly. |
| GmgnSelector.FindAndClickButton | gmgn_scraper.py:80-103 | Returns true exactly when some button whose text contains the window's label, and whose clicks did not raise, changed the page source. Buttons that raise are passed over. |
| GmgnSelector.FirstSuccess | gmgn_scraper.py:105-116 | The selected attempt is the first one from `from` on that succeeds. It fails exactly when no such attempt succeeds. |
| GmgnSelector.ClickTimeFilter | gmgn_scraper.py:105-116 | The retry loop ends at the first of the three attempts that switches the page, and raises after three failed or raising attempts. |
| GmgnSelector.SelectedIsFirst | gmgn_scraper.py:106-109 | Attempt `i` is reported exactly when it succeeds and no earlier attempt did. |
| GmgnSelector.RetriesUntilPageChanges | gmgn_scraper.py:93-100 | A click that leaves the page source unchanged does not count: two such attempts followed by a switching one select on attempt 2. |
| GmgnSelector.AllRaisingFails | gmgn_scraper.py:112-116 | Three raising attempts make the selector fail. |
| GmgnExtractor.ExtractRow | gmgn_scraper.py:162-204 | A record carries the window's period, no telegram handle and no id. When a row gives a record, and what that record holds, is stated by `WellFormedRowKept` and `ExtractedRowFields`. |
| GmgnExtractor.WellFormedRowKept | gmgn_scraper.py:163-204 | A row gives a record exactly when all of these hold: it has a wallet cell with a name anchor; it has an address anchor whose `href` contains `/address/`; any Twitter anchor has an `href`; the window's PnL cell exists, and when it has two texts its amount converts; cell 5 exists with at least three texts. Every other row raises and is skipped. |
| GmgnExtractor.ExtractedRowFields | gmgn_scraper.py:165-170 | A record's name is the stripped name-anchor text. Its address is the `href` text after the first `/address/`, up to the next occurrence or the end. Its Twitter handle is the Twitter anchor's `href`, or `None` without that anchor. |
| GmgnExtractor.ExtractData | gmgn_scraper.py:160-207 | The row loop returns the records of the rows that do not raise, in row order. |
| GmgnExtractor.ExtractRowsAppend | gmgn_scraper.py:162-204 | Extraction is row by row: the records of two runs of rows are the two record lists joined. |
| GmgnExtractor.ExtractRowsShape | gmgn_scraper.py:162-204 | There are no more records than rows. Each record is the record of one of the rows, and carries the window's period, no telegram handle and no id. |
| GmgnExtractor.AllRowsKept | gmgn_scraper.py:162-204 | When every row gives a record, the loop returns exactly those records, one per row, in row order. |
| GmgnExtractor.PnlFromWindowColumn | gmgn_scraper.py:173-178 | With at least two texts in cell `index(window)+1`, the percentage is the first text cleaned and the amount is the conversion of the second text cleaned. |
| GmgnExtractor.ZeroFallback | gmgn_scraper.py:176-182 | With fewer than two PnL texts, both the percentage and `pnl_usd` are the text `'0'`. |
| GmgnExtractor.UnconvertibleUsdSkips | gmgn_scraper.py:176-204 | A USD text that does not convert skips the row. |
| GmgnExtractor.OtherColumnsIgnored | gmgn_scraper.py:173-188 | Cells other than the window's PnL cell and cell 5 do not affect the record. |
| GmgnExtractor.CountsFromStats | gmgn_scraper.py:185-188 | Win and loss are texts 1 and 2 of cell 5, stripped and without commas. |
| GmgnStore.CreatePayload | gmgn_scraper.py:221-231 | The create payload exists exactly when `float()` of the amount and `int()` of win and loss all succeed. It keeps the record's address and period. |
| GmgnStore.CreatePayloadOfDigits | gmgn_scraper.py:221-231 | A record with a converted amount and digit-string counts is saved with that amount and the counts' decimal values, every other column as it is. |
| GmgnStore.ApplyUpdate | gmgn_scraper.py:232-241 | An updated row keeps its own wallet address and takes every other column from the update payload. |
| GmgnStore.UpsertSpec | gmgn_scraper.py:216-243 | With an existing id, that row takes the update's columns and keeps its address, and no row is added. Otherwise the create payload is stored at the next id, which then advances. Every other row is unchanged, and ids stay below the next id. |
| GmgnStore.UpdateMatchesCreate | gmgn_scraper.py:221-241 | The update payload is the create payload without the wallet address. It fails exactly when the create payload fails. |
| GmgnStore.SaveRecord | gmgn_scraper.py:215-245 | A record whose payload raises leaves the table as it was. Otherwise the table is upserted under `record.get('id', 0)`, with an update payload equal to the create payload without the address. The table stays valid. |
| GmgnStore.GmgnTable.Upsert | gmgn_scraper.py:216-243 | The table's new state is the upsert of the old one. |
| GmgnStore.GmgnTable.SaveToDatabase | gmgn_scraper.py:214-245 | The records are upserted in order, and a record whose payload raises is skipped. |
| GmgnStore.ExtractedKeyIsZero | gmgn_scraper.py:218 | Extracted records carry no id, so every upsert looks up id 0. |
| GmgnStore.SaveAppend | gmgn_scraper.py:214-245 | Saving a batch in two parts is saving the second part on top of the first. |
| GmgnStore.SkipsUnsavable | gmgn_scraper.py:244-245 | A record whose `float()` or `int()` raises leaves no trace, and the batch goes on. |
| GmgnStore.SaveInsertsOnly | gmgn_scraper.py:216-219 | With no row 0, every savable record becomes a new row, in order, and existing rows are unchanged. |
| GmgnStore.SaveTwiceDuplicates | gmgn_scraper.py:216-219 | With no row 0, saving the same batch twice stores every savable record twice. |
| GmgnStore.SaveOverwritesRowZero | gmgn_scraper.py:216-243 | On a table that already holds a row 0, no row is added, and row 0 ends up holding the last savable record's columns under its original address. |
| GmgnScraper.Collect | gmgn_scraper.py:274-281 | The window loop returns the records of the windows whose selection succeeded, in window order. |
| GmgnScraper.ScrapeWindow | gmgn_scraper.py:275-281 | One pass of the loop body yields the window's records, or none when the selector gives up. |
| GmgnScraper.ScrapeGmgn | gmgn_scraper.py:266-286 | After navigation the collected records are saved; if navigation raises, the table is unchanged. |
| GmgnScraper.CollectInOrder | gmgn_scraper.py:274-279 | The saved list is the daily, weekly and monthly records, concatenated in that order. |
| GmgnScraper.WindowIsolation | gmgn_scraper.py:274-281 | The collected records of a window's period are exactly that window's records, whatever the other windows did. |
| GmgnScraper.FailedWindowContributesNothing | gmgn_scraper.py:280-281 | A window whose selector gives up contributes no record. |
| GmgnScraper.CollectedPeriods | gmgn_scraper.py:191 | Every collected record has period 1, 7 or 30. |
| KolscanPayload.CombinePushContent | kolscan_scraper.py:88-95 | The script loop returns, in document order, the cleaned text of each script that contains `self.__next_f.push`. |
| KolscanPayload.OnlyPushScriptsCount | kolscan_scraper.py:91 | A script without text, or without the push marker, adds nothing. |
| KolscanPayload.ChunkContributesBody | kolscan_scraper.py:92-95 | A chunk script `self.__next_f.push([1,BODY])` contributes exactly BODY, brackets included, when the push opening and `]);` do not recur after the call and BODY holds no `])`. |
| KolscanPayload.PayloadBetweenMarkers | kolscan_scraper.py:97 | Once backslashes are removed, the payload starts right after the first `"initialData":`. It contains neither marker nor a backslash, and it ends at the text's end, at a second data marker, or at an `"initialUserData":`. |
| KolscanPayload.PayloadNeedsMarker | kolscan_scraper.py:97 | The payload is missing, and the window fails, exactly when the data marker is absent. |
| KolscanPayload.RewrittenClean | kolscan_scraper.py:98-99 | After the rewrite no `""`, no empty telegram handle and no trailing comma remain. |
| KolscanPayload.RewrittenKeepsClean | kolscan_scraper.py:98-99 | A payload with no `""` and no trailing comma is left unchanged. |
| KolscanPayload.RewrittenIdempotent | kolscan_scraper.py:98-99 | Rewriting twice is rewriting once. |
| KolscanPayload.TelegramBecomesNull | kolscan_scraper.py:98-99 | Around one `,"telegram":""`, in text with no other `""` and no trailing comma, that field becomes `,"telegram":null` and the rest of the text is kept. |
| KolscanSocial.BuildLookup | kolscan_scraper.py:102-111 | A decoding error, and an empty decoded list (the `IndexError` of `combined_data[0]`), each give the empty lookup. Only a non-empty decoded list can make the window fail. How the first element decides is stated by `LookupOfAddress`, `FirstRaisingItemDecides` and `MissingKeyEmptiesLookup`. |
| KolscanSocial.Run | kolscan_scraper.py:103-106 | The comprehension finishes a table exactly when every step proceeds. |
| KolscanSocial.FirstFailureDecides | kolscan_scraper.py:103-110 | A stopped comprehension stopped at its first failing step. |
| KolscanSocial.LastWriteWins | kolscan_scraper.py:103-106 | A built lookup has an entry exactly for the inserted addresses. Each entry holds the handles of the last item inserting that address. |
| KolscanSocial.StopsAtFirst | kolscan_scraper.py:103-110 | The first step that does not proceed is the one the comprehension stops with. |
| KolscanSocial.LookupOfAddress | kolscan_scraper.py:102-132 | An address no item lists gets `(None, None)`. Otherwise it gets the handles of the last item listing it. |
| KolscanSocial.FirstRaisingItemDecides | kolscan_scraper.py:101-111 | The first raising item decides the outcome. A missing `wallet_address` empties the lookup. A non-object item or an unhashable address fails the window. |
| KolscanSocial.MissingKeyEmptiesLookup | kolscan_scraper.py:108-111 | An item without `wallet_address` after well-formed items empties the whole lookup. |
| KolscanExtractor.ExtractRow | kolscan_scraper.py:116-148 | A missing anchor or heading, or (for an `href` with `/account/`) a missing win/loss div, or a missing profit div after two win/loss texts, skips the row. A missing `href`, an `href` without `/account/`, or fewer than two win/loss or profit texts aborts the window. An extracted record has the window's period and the stripped heading as name. Its address is the `href` text after the first marker. Win and loss are the first two win/loss texts, stripped. The SOL amount is the first profit text without `Sol`, and the USD amount is the second without `,` `$` `(` `)`. Its handles are the lookup's entry for the address, or `(None, None)`. |
| KolscanExtractor.Gather | kolscan_scraper.py:116-148 | The row loop fails exactly when some row aborts. |
| KolscanExtractor.ExtractData | kolscan_scraper.py:83-151 | `extract_data` returns the window's records, or raises where the payload or lookup fails or a row aborts. |
| KolscanExtractor.ExtractRowLoop | kolscan_scraper.py:113-151 | The loop over the leaderboard rows returns the records of the extracted rows in order, skips the rows with a missing element, and fails as soon as a row aborts. |
| KolscanExtractor.GatherKeeps | kolscan_scraper.py:137-148 | There are no more records than rows, and each record comes from an extracted row. |
| KolscanExtractor.GatherAppend | kolscan_scraper.py:116-148 | The loop over two runs of rows joins their records. |
| KolscanExtractor.GatherSkip | kolscan_scraper.py:146-148 | A skipped outcome leaves no trace. |
| KolscanExtractor.RowLoopOutcome | kolscan_scraper.py:116-148 | The loop fails exactly when some row aborts. Otherwise it has at most one record per row, each the record of an extracted row. |
| KolscanExtractor.RowPeriods | kolscan_scraper.py:135 | Every record carries the window's period. |
| KolscanExtractor.AddressWithoutMarkerAborts | kolscan_scraper.py:120 | An anchor whose `href` lacks `/account/` fails the whole window. |
| KolscanExtractor.TooFewTextsAbort | kolscan_scraper.py:122-130 | A row with fewer than two win/loss texts, or fewer than two profit texts, fails the whole window. |
| KolscanExtractor.MissingElementSkips | kolscan_scraper.py:116-148 | A missing anchor, heading, win/loss div or profit div skips the row. |
| KolscanExtractor.SkippedRowIgnored | kolscan_scraper.py:146-148 | Removing a skipped row does not change the window's records. |
| KolscanExtractor.CleanUsdIsReplaceChain | kolscan_scraper.py:130 | The four single-character replaces of `pnl_usd` remove exactly `,` `$` `(` `)`. |
| KolscanExtractor.SolUnitRemoved | kolscan_scraper.py:129 | An amount followed by `Sol` keeps just the stripped amount. |
| KolscanStore.CreatePayload | kolscan_scraper.py:165-173 | The create payload keeps the record's address and period. |
| KolscanStore.ApplyUpdate | kolscan_scraper.py:174-181 | An updated row keeps its address and takes every other column from the update payload. |
| KolscanStore.UpsertSpec | kolscan_scraper.py:160-183 | An upsert adds the record's address to the table's keys. |
| KolscanStore.KolTable.DeleteMany | kolscan_scraper.py:156 | Clearing empties the table. |
| KolscanStore.KolTable.Upsert | kolscan_scraper.py:160-183 | The table's new contents are the upsert of the old contents. |
| KolscanStore.KolTable.SaveToDatabase | kolscan_scraper.py:153-188 | Afterwards the table is the snapshot of the batch, whatever it held before. |
| KolscanStore.UpdateMatchesCreate | kolscan_scraper.py:165-181 | The update payload is the create payload without the wallet address. |
| KolscanStore.UpsertStores | kolscan_scraper.py:160-183 | On a keyed table an upsert stores the record's create row under its address. |
| KolscanStore.UpsertAllKeys | kolscan_scraper.py:158-183 | Upserting keeps the table keyed, and adds exactly the batch's addresses. |
| KolscanStore.UpsertAllDomain | kolscan_scraper.py:158-183 | After the upserts the table's addresses are the old ones plus exactly those of the batch. |
| KolscanStore.UpsertAllKeeps | kolscan_scraper.py:158-183 | The rows of addresses the batch does not mention are untouched. |
| KolscanStore.UpsertAllLastWins | kolscan_scraper.py:158-183 | Each mentioned address holds the row of its last record. |
| KolscanStore.SnapshotContents | kolscan_scraper.py:156-183 | A save leaves exactly one row per distinct address. Each row holds the columns of that address's last record, period included, and never win or loss. |
| KolscanStore.UpsertSnapshotAgain | kolscan_scraper.py:158-183 | Re-upserting the batch onto its own snapshot changes nothing, so repeating the run gives the same table. |
| KolscanStore.LaterRecordsDecidePeriod | kolscan_scraper.py:160-183 | An address listed among trailing records that share period `p` is stored with period `p`. |
| KolscanScraper.Target | kolscan_scraper.py:64-68 | Only Daily targets the currently selected button. |
| KolscanScraper.ClickTimeFilter | kolscan_scraper.py:70-81 | One wait and one click: Daily clicks exactly when the selected button is clickable, and Weekly or Monthly exactly when the button with its label is. A failed wait raises; what that does to the scrape is stated by `FailedWindowContributesNothing` (the window contributes nothing) and `WindowIsolation` (the other windows are unaffected). |
| KolscanScraper.ClickSeesOnlyTarget | kolscan_scraper.py:64-75 | Two filter bars that agree on the window's own target give the same click and the same records, whatever the other buttons are. |
| KolscanScraper.Collect | kolscan_scraper.py:206-213 | The window loop returns the records of the windows whose click and extraction succeed, in window order. |
| KolscanScraper.ScrapeWindow | kolscan_scraper.py:207-213 | One pass of the loop body yields the window's records, or none when the click or the extraction raises. |
| KolscanScraper.ScrapeKolscan | kolscan_scraper.py:200-218 | After navigation the table becomes the snapshot of the collected records; if navigation raises, the table is unchanged. |
| KolscanScraper.CollectInOrder | kolscan_scraper.py:206-211 | The saved list is the daily, weekly and monthly records, concatenated in that order. |
| KolscanScraper.WindowPeriods | kolscan_scraper.py:135 | A window's records carry its period. |
| KolscanScraper.WindowIsolation | kolscan_scraper.py:206-213 | The collected records of a window's period are exactly that window's records. |
| KolscanScraper.FailedWindowContributesNothing | kolscan_scraper.py:212-213 | A window whose click or extraction raises contributes no record. |
| KolscanScraper.CollectedPeriods | kolscan_scraper.py:84 | Every collected record has period 1, 7 or 30. |
| KolscanScraper.MonthlyPeriodWins | kolscan_scraper.py:206-215 | A wallet listed in the monthly window is stored with period 30, whatever the earlier windows said. |

## Left out

- **Browser driving:** driver setup, navigation, `click_svg_icon`, `time.sleep` and the `WebDriverWait` polling. These are browser I/O and timing. Navigation is a boolean input, and what each click or wait observed is an input.
- **Reading the gmgn page source:** gmgn's `extract_data` catches every row error, so it can raise only when `driver.page_source` itself fails. That browser failure is not modelled, so a gmgn window fails only through its selector.
- **HTML parsing:** BeautifulSoup parsing and CSS/XPath selection. Each row is an abstract datatype of optional fields and text lists.
- **JSON decoding:** `json.loads` itself, a foreign library, is taken as a function parameter `decode`. `None` stands for a `JSONDecodeError`.
- **JSON dictionary keys:** the decoded JSON model has string keys only. A non-string hashable `wallet_address` (a number, a boolean, `null`) never matches a string lookup, so such an item is modelled as ignored.
- **Logging:** logging set-up and every log or `print` call are side effects with no logic to model.
- **The Prisma client:** connect, disconnect and async scheduling are not modelled. Column types and database-side errors are not modelled either: a kolscan upsert is assumed to succeed, so the `except` at `kolscan_scraper.py:184-185` never fires.
- **CSV export:** the commented-out CSV export is not modelled.
- **Floats:** Python `float` rounding, exponents, underscores, `inf` and `nan` are not modelled, nor are non-ASCII Unicode decimal digits, which Python's `float()` accepts and `PyNumbers.ParseFloat` rejects. Numbers are exact decimals over the digits-with-one-point grammar.
- **Integers:** `PyNumbers.ParseInt` accepts an optional sign and ASCII digits only. Python's `int()` also accepts underscores between digits (`1_000`) and non-ASCII Unicode digits; the model rejects both, so such a gmgn record is skipped where Python would save it.
- **Row ids (a modelling assumption):** the gmgn table's `id` is taken to be an autoincrement key. A `create` is taken to ignore the `where` key and to receive the next id. The table definition is not part of this model. Under this assumption the key `0` of extracted records matches no created row, so every save adds rows.
- **What the Daily target is:** `KolscanScraper.ClickTimeFilter` targets, for Daily, whichever button is currently marked selected. The model does not track which button that is after an earlier click.
- GmgnNormalizer.ConvertToNumber: the result is an exact decimal, not a binary float.

