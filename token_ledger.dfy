/**
  TokenManager: the token ledger kept in Redis. Each token a wallet holds is
  a Redis hash under the key tokens:{wallet_id}:{token_address}; add_token
  writes the fields of one such hash, and get_tokens collects the hashes of
  one wallet, arranges them and returns one page of 20.
 */
module TokenLedger {
  import opened Results
  import opened Paging
  import opened TokenOrder

  /** redis-py refuses hmset with an empty mapping (DataError). */
  datatype StoreError = EmptyMapping

  predicate IsPrefix(p: string, s: string) {
    |p| <= |s| && s[..|p|] == p
  }

  /** The key f"tokens:{wallet_id}:{token_address}". */
  function TokenKey(walletId: string, tokenAddress: string): string {
    "tokens:" + walletId + ":" + tokenAddress
  }

  /** The pattern f"tokens:{wallet_id}:*" without its trailing *, which matches any rest. */
  function WalletPrefix(walletId: string): string {
    "tokens:" + walletId + ":"
  }

  lemma TokenKeyInWallet(walletId: string, tokenAddress: string)
    ensures IsPrefix(WalletPrefix(walletId), TokenKey(walletId, tokenAddress))
  {
    assert TokenKey(walletId, tokenAddress) == WalletPrefix(walletId) + tokenAddress;
  }

  /** HGETALL key: the fields of the hash at key, none when there is no such hash. */
  function FieldsAt(hashes: map<string, Record>, key: string): Record {
    if key in hashes then hashes[key] else map[]
  }

  /** HMSET key with the fields of data: those fields take data's values, the hash's other fields stay, no other key changes. */
  function HashSet(hashes: map<string, Record>, key: string, data: Record): (h: map<string, Record>)
    ensures h.Keys == hashes.Keys + {key}
    ensures h[key].Keys == FieldsAt(hashes, key).Keys + data.Keys
    ensures forall f :: f in data ==> h[key][f] == data[f]
    ensures forall f :: f in FieldsAt(hashes, key) && f !in data ==> h[key][f] == FieldsAt(hashes, key)[f]
    ensures forall k :: k in hashes && k != key ==> h[k] == hashes[k]
  {
    hashes[key := FieldsAt(hashes, key) + data]
  }

  /** The hashes KEYS tokens:{wallet_id}:* finds, by key. */
  function WalletEntries(hashes: map<string, Record>, walletId: string): map<string, Record> {
    map k | k in hashes && IsPrefix(WalletPrefix(walletId), k) :: hashes[k]
  }

  /** keys lists each key of entries exactly once, in some order. */
  predicate Enumerates(keys: seq<string>, entries: map<string, Record>) {
    && (forall i, j :: 0 <= i < j < |keys| ==> keys[i] != keys[j])
    && (forall i :: 0 <= i < |keys| ==> keys[i] in entries)
    && (forall k :: k in entries ==> k in keys)
  }

  /** The list the loop of lines 48-51 builds: the hash of each key, in the order of keys. */
  function Collect(hashes: map<string, Record>, keys: seq<string>): (tokens: seq<Record>)
    ensures |tokens| == |keys|
    ensures forall i :: 0 <= i < |keys| ==> tokens[i] == FieldsAt(hashes, keys[i])
  {
    if keys == [] then []
    else Collect(hashes, keys[..|keys| - 1]) + [FieldsAt(hashes, keys[|keys| - 1])]
  }

  /** What get_tokens returns for the collected records: arranged by sort_by, then the page's slice. */
  function TokensPage(tokens: seq<Record>, page: int, sortBy: string): (r: Result<seq<Record>, TokenError>)
    ensures r.Failure? <==> sortBy == "value" && !AllValuesNumeric(tokens)
    ensures r.Success? ==> |r.value| <= TokensPerPage && multiset(r.value) <= multiset(tokens)
  {
    match Arrange(tokens, sortBy)
    case Failure(e) => Failure(e)
    case Success(arranged) =>
      PageSubMultiset(arranged, page);
      Success(PageOf(arranged, page))
  }

  /** The Redis server's keyspace as far as the ledger uses it: a map from key to hash. */
  class RedisStore {
    var hashes: map<string, Record>

    /** Redis deletes a hash with its last field, so no stored hash is empty. */
    ghost predicate Valid()
      reads this
    {
      forall k :: k in hashes ==> hashes[k] != map[]
    }

    constructor ()
      ensures Valid() && hashes == map[]
    {
      hashes := map[];
    }

    /** HGETALL key. */
    function Fields(key: string): Record
      reads this
    {
      FieldsAt(hashes, key)
    }

    /** HMSET key with the fields of data; redis-py raises DataError before sending an empty mapping. */
    method HMSet(key: string, data: Record) returns (o: Outcome<StoreError>)
      requires Valid()
      modifies this
      ensures Valid()
      ensures o == if data == map[] then Fail(EmptyMapping) else Pass
      ensures hashes == if data == map[] then old(hashes) else HashSet(old(hashes), key, data)
    {
      if data == map[] {
        return Fail(EmptyMapping);
      }
      hashes := HashSet(hashes, key, data);
      assert data.Keys <= hashes[key].Keys;
      o := Pass;
    }

    /** KEYS prefix*: every key with the prefix, once each, in an order Redis does not specify. */
    method Keys(prefix: string) returns (keys: seq<string>)
      ensures forall i, j :: 0 <= i < j < |keys| ==> keys[i] != keys[j]
      ensures forall k :: k in keys <==> k in hashes && IsPrefix(prefix, k)
    {
      var pending := set k | k in hashes && IsPrefix(prefix, k);
      keys := [];
      while pending != {}
        invariant forall k :: k in keys || k in pending <==> k in hashes && IsPrefix(prefix, k)
        invariant forall k :: k in keys ==> k !in pending
        invariant forall i, j :: 0 <= i < j < |keys| ==> keys[i] != keys[j]
        decreases |pending|
      {
        var k :| k in pending;
        keys := keys + [k];
        pending := pending - {k};
      }
    }
  }

  class TokenManager {
    const redis: RedisStore

    ghost predicate Valid()
      reads this, redis
    {
      redis.Valid()
    }

    constructor (redis: RedisStore)
      requires redis.Valid()
      ensures this.redis == redis && Valid()
    {
      this.redis := redis;
    }

    /** add_token: writes token_data's fields into the hash tokens:{wallet_id}:{token_address}. */
    method AddToken(walletId: string, tokenAddress: string, tokenData: Record) returns (o: Outcome<StoreError>)
      requires Valid()
      modifies redis
      ensures Valid()
      ensures o == if tokenData == map[] then Fail(EmptyMapping) else Pass
      ensures redis.hashes == if tokenData == map[] then old(redis.hashes)
                              else HashSet(old(redis.hashes), TokenKey(walletId, tokenAddress), tokenData)
    {
      var key := TokenKey(walletId, tokenAddress);
      o := redis.HMSet(key, tokenData);
    }

    /**
      get_tokens: the page-th page of 20 of the wallet's records, arranged by
      sort_by. The ghost keys is the order in which KEYS listed the wallet's
      hashes, the one thing about the result the store leaves open.
     */
    method GetTokens(walletId: string, page: int, sortBy: string) returns (r: Result<seq<Record>, TokenError>, ghost keys: seq<string>)
      requires Valid()
      ensures Enumerates(keys, WalletEntries(redis.hashes, walletId))
      ensures r == TokensPage(Collect(redis.hashes, keys), page, sortBy)
      ensures r.Success? ==> |r.value| <= TokensPerPage
      ensures r.Success? ==> forall x :: x in r.value ==> x in WalletEntries(redis.hashes, walletId).Values && x != map[]
    {
      var tokenKeys := redis.Keys(WalletPrefix(walletId));
      keys := tokenKeys;
      KeysEnumerateWallet(redis.hashes, walletId, keys);
      var tokens: seq<Record> := [];
      for i := 0 to |tokenKeys|
        invariant tokens == Collect(redis.hashes, tokenKeys[..i])
      {
        assert tokenKeys[..i + 1][..i] == tokenKeys[..i];
        tokens := tokens + [redis.Fields(tokenKeys[i])];
      }
      assert tokenKeys[..|tokenKeys|] == tokenKeys;
      assert tokens == Collect(redis.hashes, keys);
      // Lines 53-59: the sort raises or reorders the list, then the slice picks the page.
      r := TokensPage(tokens, page, sortBy);
      GetTokensResult(redis.hashes, walletId, keys, page, sortBy);
    }
  }

  // -----------------------------------------------------------------------
  // What get_tokens returns.

  /** What a successful get_tokens returns: hashes of the wallet, none of them empty. */
  lemma GetTokensResult(hashes: map<string, Record>, walletId: string, keys: seq<string>, page: int, sortBy: string)
    requires Enumerates(keys, WalletEntries(hashes, walletId))
    requires forall k :: k in hashes ==> hashes[k] != map[]
    ensures var r := TokensPage(Collect(hashes, keys), page, sortBy);
            r.Success? ==> forall x :: x in r.value ==> x in WalletEntries(hashes, walletId).Values && x != map[]
  {
    if TokensPage(Collect(hashes, keys), page, sortBy).Success? {
      OnlyWalletRecords(hashes, walletId, keys, page, sortBy);
      WalletRecordsNonEmpty(hashes, walletId);
    }
  }

  /** What KEYS tokens:{wallet_id}:* answers lists the wallet's hashes. */
  lemma KeysEnumerateWallet(hashes: map<string, Record>, walletId: string, keys: seq<string>)
    requires forall i, j :: 0 <= i < j < |keys| ==> keys[i] != keys[j]
    requires forall k :: k in keys <==> k in hashes && IsPrefix(WalletPrefix(walletId), k)
    ensures Enumerates(keys, WalletEntries(hashes, walletId))
  {
  }

  /** Redis stores no empty hash, so none of a wallet's records is empty. */
  lemma WalletRecordsNonEmpty(hashes: map<string, Record>, walletId: string)
    requires forall k :: k in hashes ==> hashes[k] != map[]
    ensures forall x :: x in WalletEntries(hashes, walletId).Values ==> x != map[]
  {
    forall x | x in WalletEntries(hashes, walletId).Values
      ensures x != map[]
    {
      var k :| k in WalletEntries(hashes, walletId) && WalletEntries(hashes, walletId)[k] == x;
      assert k in hashes && hashes[k] == x;
    }
  }

  /** Each record collected for a wallet is one of the wallet's hashes. */
  lemma CollectedFromWallet(hashes: map<string, Record>, walletId: string, keys: seq<string>, x: Record)
    requires Enumerates(keys, WalletEntries(hashes, walletId))
    requires x in Collect(hashes, keys)
    ensures x in WalletEntries(hashes, walletId).Values
  {
    var entries := WalletEntries(hashes, walletId);
    var tokens := Collect(hashes, keys);
    var i :| 0 <= i < |tokens| && tokens[i] == x;
    assert keys[i] in entries;
    assert entries[keys[i]] == x;
  }

  /** A page holds only hashes stored under the wallet's prefix. */
  lemma OnlyWalletRecords(hashes: map<string, Record>, walletId: string, keys: seq<string>, page: int, sortBy: string)
    requires Enumerates(keys, WalletEntries(hashes, walletId))
    requires TokensPage(Collect(hashes, keys), page, sortBy).Success?
    ensures forall x :: x in TokensPage(Collect(hashes, keys), page, sortBy).value ==> x in WalletEntries(hashes, walletId).Values
  {
    var tokens := Collect(hashes, keys);
    var arranged := Arrange(tokens, sortBy).value;
    var shown := TokensPage(tokens, page, sortBy).value;
    assert shown == PageOf(arranged, page);
    forall x | x in shown
      ensures x in WalletEntries(hashes, walletId).Values
    {
      PageMember(arranged, page, x);
      assert x in multiset(arranged);
      CollectedFromWallet(hashes, walletId, keys, x);
    }
  }

  /** Each hash stored under the wallet's prefix is on one of the pages 1 to ceil(n / 20), n the wallet's number of hashes. */
  lemma EveryWalletRecordListed(hashes: map<string, Record>, walletId: string, keys: seq<string>, sortBy: string, k: string)
    requires Enumerates(keys, WalletEntries(hashes, walletId))
    requires Arrange(Collect(hashes, keys), sortBy).Success?
    requires k in WalletEntries(hashes, walletId)
    ensures exists page :: 1 <= page <= PageCount(|WalletEntries(hashes, walletId)|)
                           && hashes[k] in TokensPage(Collect(hashes, keys), page, sortBy).value
  {
    EnumerationLength(keys, WalletEntries(hashes, walletId));
    var tokens := Collect(hashes, keys);
    var arranged := Arrange(tokens, sortBy).value;
    var i :| 0 <= i < |keys| && keys[i] == k;
    assert tokens[i] == hashes[k];
    var page := PageHolding(tokens, arranged, i);
    assert TokensPage(tokens, page, sortBy).value == PageOf(arranged, page);
  }

  /** The page on which the i-th record lands once the records are rearranged. */
  lemma PageHolding(tokens: seq<Record>, arranged: seq<Record>, i: int) returns (page: int)
    requires multiset(arranged) == multiset(tokens) && |arranged| == |tokens|
    requires 0 <= i < |tokens|
    ensures 1 <= page <= PageCount(|tokens|) && tokens[i] in PageOf(arranged, page)
  {
    assert tokens[i] in multiset(tokens);
    assert tokens[i] in multiset(arranged);
    var j :| 0 <= j < |arranged| && arranged[j] == tokens[i];
    RecordOnItsPage(arranged, j);
    page := j / TokensPerPage + 1;
  }

  /** Pages 1 to ceil(n / 20) together are the arranged list: every record once, nothing else. */
  lemma PagesPartitionWallet(hashes: map<string, Record>, walletId: string, keys: seq<string>, sortBy: string)
    requires Enumerates(keys, WalletEntries(hashes, walletId))
    requires Arrange(Collect(hashes, keys), sortBy).Success?
    ensures var arranged := Arrange(Collect(hashes, keys), sortBy).value;
            var last := PageCount(|WalletEntries(hashes, walletId)|);
            && PagesUpTo(arranged, last) == arranged
            && multiset(PagesUpTo(arranged, last)) == multiset(Collect(hashes, keys))
  {
    EnumerationLength(keys, WalletEntries(hashes, walletId));
    var arranged := Arrange(Collect(hashes, keys), sortBy).value;
    PagesCoverList(arranged);
  }

  /** A list of distinct keys is as long as the set of its keys; so the wallet has |keys| hashes. */
  lemma EnumerationLength(keys: seq<string>, entries: map<string, Record>)
    requires Enumerates(keys, entries)
    ensures |keys| == |entries|
  {
    DistinctListLength(keys, entries.Keys);
  }

  lemma {:induction false} DistinctListLength(keys: seq<string>, ks: set<string>)
    requires forall i, j :: 0 <= i < j < |keys| ==> keys[i] != keys[j]
    requires forall i :: 0 <= i < |keys| ==> keys[i] in ks
    requires forall k :: k in ks ==> k in keys
    ensures |keys| == |ks|
  {
    if keys != [] {
      var last := keys[|keys| - 1];
      var init := keys[..|keys| - 1];
      var smaller := ks - {last};
      assert forall i :: 0 <= i < |init| ==> init[i] == keys[i];
      forall k | k in smaller ensures k in init {
        var i :| 0 <= i < |keys| && keys[i] == k;
        assert init[i] == k;
      }
      DistinctListLength(init, smaller);
      assert ks == smaller + {last};
    }
  }

  // -----------------------------------------------------------------------
  // What add_token changes.

  /** Where the first ':' of s stands (|s| when there is none). */
  function ColonIndex(s: string): (i: nat)
    ensures i <= |s|
    ensures forall j :: 0 <= j < i ==> s[j] != ':'
    ensures i < |s| ==> s[i] == ':'
  {
    if s == [] || s[0] == ':' then 0 else 1 + ColonIndex(s[1..])
  }

  lemma {:induction false} ColonIndexAfter(x: string, r: string)
    requires ':' !in x
    ensures ColonIndex(x + ":" + r) == |x|
  {
    if x != [] {
      assert (x + ":" + r)[1..] == x[1..] + ":" + r;
      ColonIndexAfter(x[1..], r);
    }
  }

  /** With no ':' in either wallet id, a key of one wallet carries only its own wallet's prefix. */
  lemma PrefixNamesWallet(walletId: string, tokenAddress: string, other: string)
    requires ':' !in walletId && ':' !in other
    requires IsPrefix(WalletPrefix(other), TokenKey(walletId, tokenAddress))
    ensures other == walletId
  {
    var key := TokenKey(walletId, tokenAddress);
    var rest := key[|WalletPrefix(other)|..];
    assert key == WalletPrefix(other) + rest;
    assert key[7..] == walletId + ":" + tokenAddress;
    assert key[7..] == other + ":" + rest;
    ColonIndexAfter(walletId, tokenAddress);
    ColonIndexAfter(other, rest);
    assert other == key[7..][..|other|] == walletId;
  }

  lemma WalletPrefixesDisjoint(walletId: string, tokenAddress: string, other: string)
    requires ':' !in walletId && ':' !in other && walletId != other
    ensures !IsPrefix(WalletPrefix(other), TokenKey(walletId, tokenAddress))
  {
    if IsPrefix(WalletPrefix(other), TokenKey(walletId, tokenAddress)) {
      PrefixNamesWallet(walletId, tokenAddress, other);
    }
  }

  /** add_token on one wallet leaves the hashes of every other wallet (ids without ':') as they were. */
  lemma AddTokenKeepsOtherWallets(hashes: map<string, Record>, walletId: string, tokenAddress: string, data: Record, other: string)
    requires ':' !in walletId && ':' !in other && walletId != other
    ensures WalletEntries(HashSet(hashes, TokenKey(walletId, tokenAddress), data), other) == WalletEntries(hashes, other)
  {
    WalletPrefixesDisjoint(walletId, tokenAddress, other);
  }

  /** add_token on a wallet changes that wallet's hashes at the one key it writes. */
  lemma AddTokenUpdatesOwnWallet(hashes: map<string, Record>, walletId: string, tokenAddress: string, data: Record)
    ensures var key := TokenKey(walletId, tokenAddress);
            WalletEntries(HashSet(hashes, key, data), walletId)
              == WalletEntries(hashes, walletId)[key := FieldsAt(hashes, key) + data]
  {
    TokenKeyInWallet(walletId, tokenAddress);
  }

  /**
    So get_tokens of another wallet gives, for the same KEYS order, the same
    result after add_token as before.
   */
  lemma AddTokenKeepsOtherPages(hashes: map<string, Record>, walletId: string, tokenAddress: string, data: Record,
                                other: string, keys: seq<string>, page: int, sortBy: string)
    requires ':' !in walletId && ':' !in other && walletId != other
    requires Enumerates(keys, WalletEntries(hashes, other))
    ensures var after := HashSet(hashes, TokenKey(walletId, tokenAddress), data);
            && Enumerates(keys, WalletEntries(after, other))
            && TokensPage(Collect(after, keys), page, sortBy) == TokensPage(Collect(hashes, keys), page, sortBy)
  {
    var after := HashSet(hashes, TokenKey(walletId, tokenAddress), data);
    AddTokenKeepsOtherWallets(hashes, walletId, tokenAddress, data, other);
    var before, now := Collect(hashes, keys), Collect(after, keys);
    forall i | 0 <= i < |keys| ensures now[i] == before[i] {
      assert keys[i] in WalletEntries(hashes, other);
    }
    assert now == before;
  }

  /** A wallet id holding ':' breaks that: the token of wallet "1:2" shows up among wallet "1"'s. */
  lemma ColonInWalletIdLeaks()
    ensures var after := HashSet(map[], TokenKey("1:2", "x"), map["value" := "5"]);
            WalletEntries(after, "1") != WalletEntries(map[], "1")
  {
    var after := HashSet(map[], TokenKey("1:2", "x"), map["value" := "5"]);
    assert IsPrefix(WalletPrefix("1"), TokenKey("1:2", "x"));
    assert TokenKey("1:2", "x") in WalletEntries(after, "1");
  }
}
