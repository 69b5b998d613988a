# Token ledger and list-callback model of the Solana trading bot

This Dafny project models the part of the Telegram trading bot that can be stated exactly.

- **The token ledger (`TokenManager`).** Redis holds one hash per token a wallet owns, under the key `tokens:{wallet_id}:{token_address}`. `add_token` writes a token's fields into that hash. `get_tokens` does these steps in order:
  - it asks Redis for the wallet's keys (`KEYS tokens:{wallet_id}:*`);
  - it fetches each hash in that order;
  - it sorts them stably in descending order, by `value` or by `purchase_date`;
  - it returns the Python slice `tokens[(page-1)*20 : (page-1)*20+20]`.
- **The `/list` keyboard's callback data.** The buttons carry `list_{page}_{sort_by}`. `handle_callback` splits that on `_` and reads `data[0]`, `int(data[1])` and `data[2]`.

Module layout:

- `Results`: `Option`, `Result` and `Outcome`. They stand in for the exceptions the source raises.
- `Text`: the parts of Python's `str`, `int` and `float` that the core relies on:
  - `str(n)` of an int;
  - `int(s)`;
  - `float(s)` on plain decimal notation, read as an exact `real`;
  - `<=` on two `str` values (lexicographic by code point);
  - `str.split` with a one-character separator, and `join`.
- `Paging`: Python slice semantics and the 20-per-page window.
- `TokenOrder`: records (field → value maps), the two sort keys, and a stable insertion sort that models `list.sort(key=…, reverse=True)`. Like `list.sort`, the sort takes its key as a function: `ValueKey` for sort_by 'value' and `DateKey` for 'date'. `Arrange` covers lines 53-57.
- `TokenLedger`: two classes. `RedisStore` is the keyspace as a `map<string, Record>`, with `HMSet`, `Fields` (HGETALL) and `Keys` (KEYS). `TokenManager` has `AddToken` and `GetTokens`. The module also holds the lemmas about what a page contains and about what `add_token` changes.
- `CallbackData`: `ListCallback`, `Buttons` and `ParseCallback`, with their round-trip lemmas.

Redis does not specify the order in which KEYS lists keys. So `RedisStore.Keys` picks keys nondeterministically. `GetTokens` returns that order as a ghost out-parameter `keys`. Its contract ties the result to `TokensPage(Collect(hashes, keys), page, sort_by)` for that order. Every property of the result is then proved about `TokensPage` for all orders.

Behaviours of the code that the model keeps:

- Page 0 is always empty: its slice ends at index 0.
- A negative page counts from the end of the list. With 50 records, page -1 holds records 10 to 29.
- `hmset` with an empty mapping raises `DataError` in redis-py. `AddToken` returns `Fail(EmptyMapping)` and leaves the store unchanged.
- An unparsable `value` makes `float()` raise `ValueError` during a value sort. That becomes `Failure(ValueNotNumeric(v))`, where `v` is the first such value in list order.
- A wallet id containing `:` can see another wallet's tokens. For example, `tokens:1:2:x` matches the pattern `tokens:1:*`. The "other wallets are unchanged" lemmas therefore assume ids without `:`, as Telegram's numeric user ids are. `ColonInWalletIdLeaks` shows the leak.
- `handle_callback` reads `page` and `sort_by` but does not use them (lines 186-188). The model covers the encoding and the parse only.

## Model

| member | source | states |
|---|---|---|
| Text.NatToString | app.py:168-173 | the f-string numeral of a non-negative page is all digits, denotes the number, and has no leading zero |
| Text.IntToString | app.py:168-173 | `str(n)` of any int, a '-' before the digits of a negative one. ParseIntOfIntToString and ParseDecimalOfIntToString state what it means: `int()` and `float()` read it back as n |
| Text.ParseInt | app.py:186 | `int(s)`: surrounding whitespace ignored, an optional sign, then one or more ASCII digits; anything else is None (ValueError). ParseIntOfIntToString is its round trip with IntToString |
| Text.ParseDecimal | app.py:55 | `float(s)` on decimal notation: whitespace ignored, an optional sign, digits with an optional fraction; anything else is None. ParseDecimalOfIntToString is its round trip with IntToString |
| Text.ParseIntOfIntToString | app.py:186 | `int()` reads back the numeral the keyboard wrote: int(str(n)) == n for every int, negative ones included |
| Text.ParseDecimalOfIntToString | app.py:55 | a `value` field written as an integer numeral is read by `float()` as exactly that number |
| Text.LexLeReflexive | app.py:57 | the `str` order used for the date sort is reflexive |
| Text.LexLeTotal | app.py:57 | any two `purchase_date` strings are comparable |
| Text.LexLeTransitive | app.py:57 | the `str` order is transitive |
| Text.LexLeAntisymmetric | app.py:57 | two strings each `<=` the other are equal |
| Text.Split | app.py:183 | `split('_')` always yields at least one part, and no part contains the separator |
| Text.JoinOfSplit | app.py:183 | joining the parts of a split with the separator gives back the original string |
| Text.SplitOfJoin | app.py:183 | splitting a join of separator-free parts gives back exactly those parts |
| Paging.SliceBound | app.py:59 | a normalised Python slice bound lies within the list |
| Paging.Slice | app.py:59 | a Python slice is never longer than the list, nor longer than j - i |
| Paging.PageOf | app.py:40-42 | the page get_tokens returns holds at most 20 records, for every page number |
| Paging.PageMember | app.py:59 | every record on a page is a record of the list |
| Paging.PageIsWindow | app.py:41-42 | for page >= 1 the result is exactly the list from index (page-1)*20 up to min(len, page*20) |
| Paging.PageZeroIsEmpty | app.py:41-42 | page 0 is always empty, since its slice ends at 0 |
| Paging.PagePastEndIsEmpty | app.py:59 | a page starting at or beyond the end of the list is empty |
| Paging.PageEmptyIff | app.py:41-59 | a positive page is empty if and only if it starts at or beyond the end |
| Paging.NegativePageCountsFromEnd | app.py:41-59 | a negative page takes its bounds from the end of the list, clamped at 0 |
| Paging.MinusOneIsNotEmpty | app.py:41-59 | with 50 records, page -1 is records 10 to 29, not empty |
| Paging.PagesUpToIsPrefix | app.py:41-59 | pages 1..k together are exactly the first 20k records |
| Paging.PagesCoverList | app.py:41-59 | pages 1..ceil(n/20) concatenated reproduce the list, each record once |
| Paging.PagesAfterLastAreEmpty | app.py:41-59 | every page after page ceil(n/20) is empty |
| Paging.RecordOnItsPage | app.py:41-59 | record i is at position i mod 20 of page i div 20 + 1, a page between 1 and ceil(n/20) |
| TokenOrder.KeyLeReflexive | app.py:54-57 | the sort-key order is reflexive |
| TokenOrder.KeyLeTotal | app.py:54-57 | any two sort keys are comparable |
| TokenOrder.KeyLeTransitive | app.py:54-57 | the sort-key order is transitive |
| TokenOrder.KeyLeAntisymmetric | app.py:54-57 | keys each `<=` the other are equal, so ties are exactly equal keys |
| TokenOrder.ValueOf | app.py:55 | the key lambda `float(x.get('value', 0))`: the parsed value, 0 when the field is missing, None where `float()` raises. FirstNonNumeric and Arrange use it |
| TokenOrder.DateOf | app.py:57 | the key lambda `x.get('purchase_date', '')`. ArrangeByDate states the order it induces |
| TokenOrder.FirstFailing | app.py:55 | the index of the first record the test rejects: all records before it pass and the one at it fails, or it is len(list) when all pass |
| TokenOrder.FirstNonNumeric | app.py:55 | finds a rejected value exactly when some record's `value` fails `float()`. What it returns is the raw value of the FIRST such record in list order (every record before it parses, by FirstFailing's contract), and it does not parse |
| TokenOrder.InsertPermutes | app.py:55-57 | inserting one record adds exactly that record |
| TokenOrder.InsertKeepsSorted | app.py:55-57 | inserting into a non-increasing list keeps it non-increasing |
| TokenOrder.SortDesc | app.py:55-57 | `list.sort(key=key, reverse=True)`. SortDescSorted, SortDescPermutes, SortDescStable and SortDescOfSorted state its properties |
| TokenOrder.SortDescSorted | app.py:55-57 | `sort(reverse=True)` leaves the keys in non-increasing order |
| TokenOrder.SortDescPermutes | app.py:55-57 | the sort is a permutation: same multiset of records |
| TokenOrder.WithKeyOfInsert | app.py:55-57 | inserting x puts it in front of all records it ties with |
| TokenOrder.SortDescStable | app.py:55-57 | the sort is stable: records with equal keys keep their original relative order |
| TokenOrder.SortDescOfSorted | app.py:55-57 | a list already in non-increasing order is left unchanged |
| TokenOrder.Arrange | app.py:53-57 | fails only for sort 'value' with an unparsable value. On success the result is SortDesc by the sort's key, so a non-increasing and stable permutation of the collected records. For any other sort_by it is the collected list unchanged |
| TokenOrder.ArrangeByDate | app.py:56-57 | with 'date', later entries have `purchase_date` (missing read as '') `<=` earlier ones, and the result is a permutation of the records: nothing is lost or added |
| TokenLedger.TokenKeyInWallet | app.py:35-45 | the key add_token writes matches the pattern get_tokens scans for that wallet |
| TokenLedger.TokenKey | app.py:35 | the key f"tokens:{wallet_id}:{token_address}". TokenKeyInWallet states that it matches its wallet's pattern |
| TokenLedger.WalletPrefix | app.py:45 | the fixed part of the pattern f"tokens:{wallet_id}:*". PrefixNamesWallet and WalletPrefixesDisjoint state which keys it matches |
| TokenLedger.HashSet | app.py:36 | HMSET sets data's fields and keeps the hash's other fields; every other key is unchanged |
| TokenLedger.Collect | app.py:48-51 | the collected list has one record per key: the hash of the key at the same index |
| TokenLedger.TokensPage | app.py:53-59 | the sort, then the page's slice: fails exactly when sort 'value' meets an unparsable value; a successful page holds at most 20 records, taken from the collected ones |
| TokenLedger.RedisStore.constructor | app.py:203 | the model's store starts empty and satisfies the no-empty-hash invariant. The real server may already hold data; TokenManager accepts any store that satisfies the invariant |
| TokenLedger.RedisStore.Fields | app.py:50 | `hgetall(key)`: the stored hash, or an empty dict for a missing key. Collect states the list the loop builds from it |
| TokenLedger.RedisStore.HMSet | app.py:36 | an empty mapping is refused and the store is unchanged; otherwise the store becomes HashSet(old, key, data); no stored hash is ever empty |
| TokenLedger.RedisStore.Keys | app.py:46 | lists every key with the prefix, each exactly once, and no other key |
| TokenLedger.TokenManager.constructor | app.py:30-31 | the manager wraps the given store and starts with its invariant |
| TokenLedger.TokenManager.AddToken | app.py:33-36 | writes only the key tokens:{w}:{a}, merging the record's fields into it; an empty record fails with nothing written |
| TokenLedger.TokenManager.GetTokens | app.py:38-59 | the result is TokensPage of the wallet's hashes in the order KEYS listed them. Those keys are exactly the wallet's, each once. A successful result has at most 20 records, all of them non-empty hashes stored under the wallet's prefix |
| TokenLedger.OnlyWalletRecords | app.py:45-59 | every returned record is a hash stored under `tokens:{w}:` |
| TokenLedger.GetTokensResult | app.py:45-59 | a successful page holds only the wallet's hashes, and none of them is empty, since Redis stores no empty hash |
| TokenLedger.EveryWalletRecordListed | app.py:45-59 | when the sort succeeds and every page comes from the same KEYS order, every hash under `tokens:{w}:` appears on some page between 1 and ceil(n/20). When a value sort raises, every page raises |
| TokenLedger.PagesPartitionWallet | app.py:45-59 | when every page comes from the same KEYS order, pages 1..ceil(n/20) concatenated are the arranged list, a permutation of the wallet's records |
| TokenLedger.EnumerationLength | app.py:46 | a duplicate-free listing of the wallet's keys is as long as the wallet has hashes |
| TokenLedger.PrefixNamesWallet | app.py:35-45 | for ids without ':', a token key carries the prefix of its own wallet only |
| TokenLedger.WalletPrefixesDisjoint | app.py:35-45 | for different ids without ':', one wallet's key never matches the other's pattern |
| TokenLedger.AddTokenKeepsOtherWallets | app.py:35-46 | add_token leaves every other wallet's hashes unchanged |
| TokenLedger.AddTokenUpdatesOwnWallet | app.py:35-46 | add_token changes its own wallet's hashes only at the key written, to the merged record |
| TokenLedger.AddTokenKeepsOtherPages | app.py:35-59 | after add_token, another wallet's get_tokens gives the same result for every page and sort key, for the same KEYS order. Redis may list keys in a new order after a write, and this lemma does not cover that case |
| TokenLedger.ColonInWalletIdLeaks | app.py:35-45 | without that restriction the property fails: a token of wallet "1:2" shows up in wallet "1"'s scan |
| CallbackData.ListCallback | app.py:168-173 | the data f"list_{page}_{sort_by}"; it always starts with "list_". ParseListCallback is its round trip with ParseCallback |
| CallbackData.Buttons | app.py:166-175 | the data of the four buttons. PageButtonsStep and SortButtonsKeepPage state what each decodes to |
| CallbackData.ParseCallback | app.py:183-187 | `split('_')`, then `int(data[1])` and `data[2]` when data[0] is 'list'. An exception is raised only for data whose first part is 'list', and a parsed sort key never contains '_' |
| CallbackData.SplitListCallback | app.py:168-183 | `list_{page}_{sort_by}` splits into "list", the page numeral, then the parts of sort_by |
| CallbackData.ParseListCallback | app.py:168-187 | for any int page and any sort_by without '_', parsing the callback gives back ('list', page, sort_by) |
| CallbackData.ParseListCallbackCutsSortKey | app.py:168-187 | a sort_by containing '_' comes back cut at its first '_' |
| CallbackData.PageButtonsStep | app.py:168-169 | Previous and Next decode to page-1 and page+1 with the same sort key |
| CallbackData.SortButtonsKeepPage | app.py:172-173 | the two sort buttons decode to the same page with 'value' and 'date' |
| CallbackData.FirstPartListShape | app.py:183-185 | if the first part is 'list', the data is "list" or starts with "list_" |
| CallbackData.ListShapeFirstPart | app.py:183-185 | data that is "list" or starts with "list_" has 'list' as its first part |
| CallbackData.FirstPartIsList | app.py:183-185 | data[0] == 'list' if and only if the data is "list" or starts with "list_" |
| CallbackData.NotListIff | app.py:183-187 | handle_callback ignores data exactly when it is neither "list" nor starts with "list_" |

## Left out

- `SecurityManager` (Fernet encryption of private keys) is left out. It is a thin wrapper over a cryptography library, so any property of it would be an assumption about that library.
- `TradingManager.get_quote` and `execute_trade` are left out. They are HTTP calls to the Jupiter aggregator, a random `asyncio.sleep`, Solana transaction deserialisation and signing, and an RPC send: I/O, randomness and foreign calls.
- `create_wallet_command` is left out. Keypair generation is a library CSPRNG, and the wallet data it builds is never stored.
- The Telegram handlers, message text, `InlineKeyboardMarkup` rendering and `run_polling` are left out. They are UI and event-loop plumbing. The same goes for `/list` passing `context.args[0]` (a string) as the page, and for `handle_callback` calling `list_tokens_command` without the page it parsed.
- Module-level configuration and bootstrap (lines 194-217) are left out.
- Text.ParseDecimal: `float()` is modelled only on plain decimal notation, with exact `real` values. Exponents, `inf`/`nan`, underscores and non-ASCII digits are treated as unparsable. The model strips only space and \t to \r around the numeral; Python also strips \x1c to \x1f and other Unicode whitespace. Binary floating-point rounding is not modelled. TokenOrder.ValueOf inherits these limits.
- Text.ParseInt: the model strips only space and \t to \r around the numeral; Python's `int()` also strips \x1c to \x1f and other Unicode whitespace. The model accepts ASCII digits only, and no underscores between digits. Parts of a '_'-split never contain underscores anyway.
- Redis glob semantics beyond a plain prefix match are not modelled. A wallet id containing `*`, `?`, `[` or `\` would change the pattern.
- Redis returns field names as bytes, not str, unless responses are decoded. The bytes-versus-str issue is not modelled: as written, `x.get('value', 0)` would then never find the field.
- Field values in `token_data` are modelled as strings. redis-py's conversion of other Python values to strings is not modelled.
- `list.sort` is a library routine. Its effect is modelled by a function (a stable insertion sort), not by an in-place algorithm.
- TokenLedger.TokenManager.GetTokens: the default arguments `page=1` and `sort_by='value'` of `get_tokens` are not modelled; both are always passed explicitly. The only call site, line 152, passes both.
- TokenLedger.EveryWalletRecordListed: each get_tokens call runs its own KEYS, and separate calls can see the keys in different orders. The lemma and TokenLedger.PagesPartitionWallet cut every page from one order. Across calls, an unsorted list, or records that tie within a sort, can be skipped or repeated from one page to the next.
- Redis errors other than `DataError` are not modelled. A key under `tokens:{w}:` holding a non-hash makes `hgetall` or `hmset` raise WRONGTYPE, and a lost connection raises `ConnectionError`. The model's keyspace maps every key to a hash and is always reachable, so neither can arise in it.
- Concurrency between Redis clients is not modelled. `get_tokens` is treated as seeing one snapshot of the store.
