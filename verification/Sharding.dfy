/** Routing of users to the eight shard tables. */
module Sharding {
  import opened Common
  import opened Bits
  import Snowflake

  const TABLE_COUNT := 8

  datatype RouteError = Disabled | BadTableCount | BadPrefix | BadUserID | BadTableIndex

  predicate LowerCase(c: char) { 'a' <= c <= 'z' }
  predicate NameChar(c: char) { LowerCase(c) || '0' <= c <= '9' || c == '_' }

  /** A lower-case letter, then name characters, ending in an underscore. */
  predicate ValidPrefix(prefix: string) {
    && |prefix| >= 2
    && LowerCase(prefix[0]) && prefix[|prefix| - 1] == '_'
    && forall i :: 0 <= i < |prefix| ==> NameChar(prefix[i])
  }

  /** The valid prefixes are a lower-case letter, any name characters, and an underscore. */
  lemma PrefixShape(prefix: string)
    ensures ValidPrefix(prefix) <==>
            exists first, rest :: prefix == [first] + rest + "_" && LowerCase(first) && forall c :: c in rest ==> NameChar(c)
  {
    if ValidPrefix(prefix) {
      var first, rest := prefix[0], prefix[1..|prefix| - 1];
      assert prefix == [first] + rest + "_";
    }
  }

  function TwoDigits(n: nat): string
    requires n < 100
  {
    ["0123456789"[n / 10], "0123456789"[n % 10]]
  }

  function TableIndex(userID: int): Result<nat, RouteError> {
    if userID <= 0 then Err(BadUserID) else Ok(userID % TABLE_COUNT)
  }

  class UserRouter {
    const tableNames: array<string>

    ghost predicate Valid()
      reads tableNames
    {
      && tableNames.Length == TABLE_COUNT
      && exists prefix :: Names(prefix)
    }

    ghost predicate Names(prefix: string)
      reads tableNames
    {
      forall i {:trigger tableNames[i]} :: 0 <= i < tableNames.Length && i < 100 ==> tableNames[i] == prefix + TwoDigits(i)
    }

    constructor (names: array<string>)
      ensures tableNames == names
    {
      tableNames := names;
    }

    method TableNameByIndex(index: int) returns (name: Result<string, RouteError>)
      requires Valid()
      ensures name == if 0 <= index < TABLE_COUNT then Ok(tableNames[index]) else Err(BadTableIndex)
    {
      if index < 0 || index >= tableNames.Length {
        return Err(BadTableIndex);
      }
      return Ok(tableNames[index]);
    }

    method TableName(userID: int) returns (name: Result<string, RouteError>)
      requires Valid()
      ensures name == if userID <= 0 then Err(BadUserID) else Ok(tableNames[userID % TABLE_COUNT])
    {
      var index := TableIndex(userID);
      if index.Err? {
        return Err(index.error);
      }
      return Ok(tableNames[index.value]);
    }

    /** Table i is the prefix, a zero and the digit i. */
    lemma NameShape(prefix: string, i: nat)
      requires tableNames.Length == TABLE_COUNT && Names(prefix) && i < TABLE_COUNT
      ensures |tableNames[i]| == |prefix| + 2 && tableNames[i][..|prefix|] == prefix
      ensures tableNames[i][|prefix|] == '0' && tableNames[i][|prefix| + 1] as int == '0' as int + i
    {
      assert tableNames[i] == prefix + TwoDigits(i);
    }

    /** Different shards live in different tables. */
    lemma NamesDiffer(i: nat, j: nat)
      requires Valid() && i < TABLE_COUNT && j < TABLE_COUNT && i != j
      ensures tableNames[i] != tableNames[j]
    {
      var prefix :| Names(prefix);
      assert tableNames[i] == prefix + TwoDigits(i) && tableNames[j] == prefix + TwoDigits(j);
      assert tableNames[i][|prefix| + 1] == "0123456789"[i];
      assert tableNames[j][|prefix| + 1] == "0123456789"[j];
    }
  }

  method NewUserRouter(enabled: bool, tableCount: int, prefix: string) returns (router: Result<UserRouter, RouteError>)
    ensures router.Ok? <==> enabled && tableCount == TABLE_COUNT && ValidPrefix(prefix)
    ensures router.Ok? ==> router.value.Valid() && router.value.Names(prefix)
    ensures router.Err? ==>
              router.error == if !enabled then Disabled else if tableCount != TABLE_COUNT then BadTableCount else BadPrefix
  {
    if !enabled {
      return Err(Disabled);
    }
    if tableCount != TABLE_COUNT {
      return Err(BadTableCount);
    }
    if !ValidPrefix(prefix) {
      return Err(BadPrefix);
    }
    var names := new string[tableCount];
    for index := 0 to names.Length
      invariant forall i {:trigger names[i]} :: 0 <= i < index ==> names[i] == prefix + TwoDigits(i)
    {
      names[index] := prefix + TwoDigits(index);
    }
    var r := new UserRouter(names);
    assert r.Names(prefix);
    return Ok(r);
  }

  /** An ID's shard is decided by its sequence number alone; the one unroutable ID is zero. */
  lemma ShardOfGeneratedId(timestamp: nat, node: nat, sequence: nat)
    requires Snowflake.ValidFields(timestamp, node, sequence)
    ensures TableIndex(Snowflake.Pack(timestamp, node, sequence)) ==
            if timestamp == 0 && node == 0 && sequence == 0 then Err(BadUserID) else Ok(sequence % TABLE_COUNT)
  {
    Snowflake.PositiveUnlessZero(timestamp, node, sequence);
    Snowflake.PackIsSum(timestamp, node, sequence);
    var high := timestamp * Snowflake.NODE_LIMIT + node;
    assert (high * 512 + sequence / 8) * 8 + sequence % 8 == Snowflake.Pack(timestamp, node, sequence);
    RemainderOf(Snowflake.Pack(timestamp, node, sequence), 8, high * 512 + sequence / 8, sequence % 8);
  }
}
