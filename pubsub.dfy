/**
 * The publication/subscription list-string helpers: table and account
 * lists are strings whose elements are separated by the package constant
 * `Sep`. The package constants `Sep`, `TableAll` and `PubAllAccounts` are
 * parameters here (`sep`, `tableAll`, `pubAll`); `sep` is not empty.
 */
module PubSub {
  import opened Common
  import opened Seqs
  import opened Text

  newtype i32 = x: int | -0x8000_0000 <= x < 0x8000_0000

  /** An account row as read from the catalog. */
  datatype AccountInfo = AccountInfo(Id: i32, Name: string, Status: string, Version: nat, SuspendedTime: string)

  /**
   * Whether a subscription covers `tableName`: its table list is the
   * all-tables marker (compared after lower-casing) or names the table
   * exactly.
   */
  method InSubMetaTables(tables: string, tableName: string, tableAll: string, sep: string) returns (b: bool)
    requires |sep| > 0
    ensures b <==> ToLower(tables) == tableAll || tableName in Split(tables, sep)
  {
    if ToLower(tables) == tableAll {
      return true;
    }
    var names := Split(tables, sep);
    for i := 0 to |names|
      invariant tableName !in names[..i]
    {
      if names[i] == tableName {
        return true;
      }
    }
    return false;
  }

  /** Each element wrapped in single quotes. */
  function Quoted(s: seq<string>): (r: seq<string>)
    ensures |r| == |s|
    ensures forall i :: 0 <= i < |s| ==> r[i] == "'" + s[i] + "'"
  {
    seq(|s|, i requires 0 <= i < |s| => "'" + s[i] + "'")
  }

  lemma {:induction false} QuotesJoin(s: seq<string>)
    requires |s| > 0
    ensures "'" + Join(s, "','") + "'" == Join(Quoted(s), ",")
  {
    if |s| > 1 {
      QuotesJoin(s[1..]);
      assert Quoted(s)[1..] == Quoted(s[1..]);
      assert Join(s, "','") == s[0] + "','" + Join(s[1..], "','");
      assert Join(Quoted(s), ",") == Quoted(s)[0] + "," + Join(Quoted(s[1..]), ",");
    }
  }

  /** The list as an SQL value list: each element quoted, separated by commas. */
  function AddSingleQuotesJoin(s: seq<string>): (r: string)
    ensures |s| == 0 ==> r == ""
    ensures r == Join(Quoted(s), ",")
  {
    if |s| == 0 then ""
    else
      QuotesJoin(s);
      "'" + Join(s, "','") + "'"
  }

  /** The accounts of an account-list string: no accounts for "", else the trimmed pieces. */
  function SplitAccountsOf(s: string, sep: string): (r: seq<string>)
    requires |sep| > 0
  {
    if |s| == 0 then [] else seq(|Split(s, sep)|, i requires 0 <= i < |Split(s, sep)| => TrimSpace(Split(s, sep)[i]))
  }

  /** Splits an account-list string into its white-space-trimmed account names. */
  method SplitAccounts(s: string, sep: string) returns (accounts: seq<string>)
    requires |sep| > 0
    ensures |s| == 0 ==> accounts == []
    ensures |s| > 0 ==> |accounts| == |Split(s, sep)|
    ensures |s| > 0 ==> forall i :: 0 <= i < |accounts| ==> accounts[i] == TrimSpace(Split(s, sep)[i])
    ensures accounts == SplitAccountsOf(s, sep)
  {
    accounts := [];
    if |s| == 0 {
      return;
    }
    var splits := Split(s, sep);
    for i := 0 to |splits|
      invariant |accounts| == i
      invariant forall j :: 0 <= j < i ==> accounts[j] == TrimSpace(splits[j])
    {
      accounts := accounts + [TrimSpace(splits[i])];
    }
  }

  /** No account name produced by a split starts or ends with white space. */
  lemma SplitAccountsTrimmed(s: string, sep: string)
    requires |sep| > 0
    ensures forall a :: a in SplitAccountsOf(s, sep) ==> |a| == 0 || (!IsSpace(a[0]) && !IsSpace(a[|a| - 1]))
  {
    var r := SplitAccountsOf(s, sep);
    forall a | a in r ensures |a| == 0 || (!IsSpace(a[0]) && !IsSpace(a[|a| - 1])) {
      var i :| 0 <= i < |r| && r[i] == a;
      assert a == TrimSpace(Split(s, sep)[i]);
    }
  }

  /**
   * Splitting a joined list of trimmed names (none holding the one-character
   * separator) gives the names back, unless the join is the empty string.
   */
  lemma SplitAccountsOfJoin(names: seq<string>, c: char)
    requires |Join(names, [c])| > 0
    requires forall k :: 0 <= k < |names| ==> c !in names[k]
    requires forall k :: 0 <= k < |names| ==> |names[k]| == 0 || (!IsSpace(names[k][0]) && !IsSpace(names[k][|names[k]| - 1]))
    ensures SplitAccountsOf(Join(names, [c]), [c]) == names
  {
    SplitJoinSingle(names, c);
    var r := SplitAccountsOf(Join(names, [c]), [c]);
    forall k | 0 <= k < |names| ensures r[k] == names[k] {
      TrimSpaceOfTrimmed(names[k]);
    }
  }

  /** The names in an account map, with multiplicity, in no particular order. */
  ghost function NameBag(m: map<i32, AccountInfo>): multiset<string>
    decreases |m|
  {
    if |m| == 0 then multiset{} else var k :| k in m; multiset{m[k].Name} + NameBag(m - {k})
  }

  /** Any entry can be taken out of the bag first. */
  lemma {:induction false} NameBagRemove(m: map<i32, AccountInfo>, k: i32)
    requires k in m
    ensures NameBag(m) == multiset{m[k].Name} + NameBag(m - {k})
    decreases |m|
  {
    var k' :| k' in m && NameBag(m) == multiset{m[k'].Name} + NameBag(m - {k'});
    if k' != k {
      assert m - {k'} - {k} == m - {k} - {k'};
      NameBagRemove(m - {k'}, k);
      NameBagRemove(m - {k}, k');
    }
  }

  /** The names of an account map's entries, ascending. */
  ghost function SortedNames(m: map<i32, AccountInfo>): (r: seq<string>)
    ensures Sorted(r)
    ensures multiset(r) == NameBag(m)
    ensures |r| == |m|
  {
    Sort(NamesOf(m))
  }

  /** The names of the entries of `m`, in some order. */
  ghost function NamesOf(m: map<i32, AccountInfo>): (r: seq<string>)
    ensures multiset(r) == NameBag(m)
    ensures |r| == |m|
    decreases |m|
  {
    if |m| == 0 then []
    else
      var k :| k in m;
      NameBagRemove(m, k);
      [m[k].Name] + NamesOf(m - {k})
  }

  /** Whatever order the names are arranged in, sorting them gives `SortedNames`. */
  lemma SortedNamesUnique(m: map<i32, AccountInfo>, s: seq<string>)
    requires Sorted(s) && multiset(s) == NameBag(m)
    ensures s == SortedNames(m)
  {
    SortedUnique(s, SortedNames(m));
  }

  /**
   * The account names of the map, sorted ascending and separated by `sep`.
   * The entries are visited in an arbitrary order, as Go's map iteration
   * visits them; the result does not depend on that order.
   */
  method JoinAccounts(accountMap: map<i32, AccountInfo>, sep: string) returns (r: string)
    ensures r == Join(SortedNames(accountMap), sep)
  {
    var accountNames: seq<string> := [];
    ghost var rest := accountMap;
    var visit := accountMap.Keys;
    while visit != {}
      invariant visit == rest.Keys
      invariant forall k :: k in rest ==> k in accountMap && rest[k] == accountMap[k]
      invariant multiset(accountNames) + NameBag(rest) == NameBag(accountMap)
      decreases visit
    {
      var k :| k in visit;
      TakeName(accountNames, rest, k);
      accountNames := accountNames + [accountMap[k].Name];
      rest := rest - {k};
      visit := visit - {k};
    }
    accountNames := Sort(accountNames);
    SortedNamesUnique(accountMap, accountNames);
    r := Join(accountNames, sep);
  }

  /** Moving one entry's name from the remaining map to the list keeps the bag. */
  lemma TakeName(names: seq<string>, rest: map<i32, AccountInfo>, k: i32)
    requires k in rest
    ensures multiset(names + [rest[k].Name]) + NameBag(rest - {k}) == multiset(names) + NameBag(rest)
  {
    NameBagRemove(rest, k);
  }

  /** The decimal renderings of the ids, in order. */
  function Decimals(ids: seq<i32>): (r: seq<string>)
    ensures |r| == |ids|
    ensures forall i :: 0 <= i < |ids| ==> r[i] == Decimal(ids[i] as int)
  {
    seq(|ids|, i requires 0 <= i < |ids| => Decimal(ids[i] as int))
  }

  /** The ids rendered in decimal and separated by commas; "" for no ids. */
  method JoinAccountIds(accIds: seq<i32>) returns (s: string)
    ensures |accIds| == 0 ==> s == ""
    ensures s == Join(Decimals(accIds), ",")
  {
    if |accIds| == 0 {
      return "";
    }
    ghost var ds := Decimals(accIds);
    s := Decimal(accIds[0] as int);
    assert ds[..1] == [ds[0]];
    assert Join(ds[..1], ",") == ds[0];
    for i := 1 to |accIds|
      invariant s == Join(ds[..i], ",")
    {
      JoinPrefixStep(ds, i, ",");
      var d := Decimal(accIds[i] as int);
      assert d == ds[i];
      s := s + "," + d;
    }
    assert ds[..|accIds|] == ds;
  }

  /** The id list can be read back: split at the commas and parse each piece. */
  lemma JoinAccountIdsRoundTrip(accIds: seq<i32>)
    requires |accIds| > 0
    ensures |Split(Join(Decimals(accIds), ","), ",")| == |accIds|
    ensures forall i :: 0 <= i < |accIds| ==> ParseDecimal(Split(Join(Decimals(accIds), ","), ",")[i]) == Some(accIds[i] as int)
  {
    SplitJoinSingle(Decimals(accIds), ',');
    forall i | 0 <= i < |accIds| ensures ParseDecimal(Decimals(accIds)[i]) == Some(accIds[i] as int) {
      DecimalRoundTrip(accIds[i] as int);
    }
  }

  /** Whether `accountName` may publish to all accounts. */
  function CanPubToAll(accountName: string, pubAllAccounts: string, pubAll: string, sep: string): bool
    requires |sep| > 0
  {
    pubAllAccounts == pubAll || accountName in SplitAccountsOf(pubAllAccounts, sep)
  }

  /** Some piece of `pieces`, trimmed of white space, is `name`. */
  ghost predicate Listed(name: string, pieces: seq<string>)
  {
    exists i :: 0 <= i < |pieces| && TrimSpace(pieces[i]) == name
  }

  /**
   * An account may publish to all exactly when the list is the
   * all-accounts marker, or the list is not empty and one of its pieces,
   * trimmed, is the account's name.
   */
  lemma CanPubToAllPieces(accountName: string, pubAllAccounts: string, pubAll: string, sep: string)
    requires |sep| > 0
    ensures CanPubToAll(accountName, pubAllAccounts, pubAll, sep) <==>
      pubAllAccounts == pubAll || (|pubAllAccounts| > 0 && Listed(accountName, Split(pubAllAccounts, sep)))
  {
    if |pubAllAccounts| > 0 {
      var ps := Split(pubAllAccounts, sep);
      var acc := SplitAccountsOf(pubAllAccounts, sep);
      assert |acc| == |ps| && forall k :: 0 <= k < |acc| ==> acc[k] == TrimSpace(ps[k]);
      if accountName in acc {
        var i :| 0 <= i < |acc| && acc[i] == accountName;
        assert TrimSpace(ps[i]) == accountName;
        assert Listed(accountName, ps);
      }
      if Listed(accountName, ps) {
        var i :| 0 <= i < |ps| && TrimSpace(ps[i]) == accountName;
        assert acc[i] == accountName;
      }
      assert accountName in acc <==> Listed(accountName, ps);
    }
  }

  /**
   * For a non-empty list of trimmed names joined by a one-character
   * separator, an account may publish to all exactly when it is listed
   * (or the list is the all-accounts marker).
   */
  lemma CanPubToAllListed(accountName: string, names: seq<string>, pubAll: string, c: char)
    requires |Join(names, [c])| > 0
    requires forall k :: 0 <= k < |names| ==> c !in names[k]
    requires forall k :: 0 <= k < |names| ==> |names[k]| == 0 || (!IsSpace(names[k][0]) && !IsSpace(names[k][|names[k]| - 1]))
    ensures CanPubToAll(accountName, Join(names, [c]), pubAll, [c]) <==> Join(names, [c]) == pubAll || accountName in names
  {
    SplitAccountsOfJoin(names, c);
  }

  /** `xs` without the elements equal to `t`, in their order. */
  function Without(xs: seq<string>, t: string): (r: seq<string>)
    ensures t !in r
    ensures forall y :: y != t ==> multiset(r)[y] == multiset(xs)[y]
  {
    if |xs| == 0 then []
    else
      var init := xs[..|xs| - 1];
      var last := xs[|xs| - 1];
      assert xs == init + [last];
      Without(init, t) + (if last != t then [last] else [])
  }

  /** The tables left by `RemoveTable`, ascending. */
  function RemainingTables(oldTableListStr: string, tblName: string, sep: string): (r: seq<string>)
    requires |sep| > 0
    ensures Sorted(r)
    ensures tblName !in r
    ensures forall y :: y != tblName ==> multiset(r)[y] == multiset(Split(oldTableListStr, sep))[y]
  {
    var w := Without(Split(oldTableListStr, sep), tblName);
    var r := Sort(w);
    assert multiset(r) == multiset(w);
    assert tblName !in multiset(w);
    assert tblName !in multiset(r);
    r
  }

  /**
   * Removes `tblName` from a table list: the all-tables marker is kept as it
   * is; otherwise every other table is kept and the list is sorted.
   */
  method RemoveTable(oldTableListStr: string, tblName: string, tableAll: string, sep: string) returns (r: string)
    requires |sep| > 0
    ensures oldTableListStr == tableAll ==> r == tableAll
    ensures oldTableListStr != tableAll ==> r == Join(RemainingTables(oldTableListStr, tblName, sep), sep)
  {
    if oldTableListStr == tableAll {
      return tableAll;
    }
    var tableList := Split(oldTableListStr, sep);
    var newTableList: seq<string> := [];
    for i := 0 to |tableList|
      invariant newTableList == Without(tableList[..i], tblName)
    {
      assert tableList[..i + 1][..i] == tableList[..i];
      if tableList[i] != tblName {
        newTableList := newTableList + [tableList[i]];
      }
    }
    assert tableList[..|tableList|] == tableList;
    newTableList := Sort(newTableList);
    r := Join(newTableList, sep);
  }

  /** No piece of a split at a one-character separator holds that character. */
  lemma PiecesAvoidChar(s: string, c: char)
    ensures forall k :: 0 <= k < |Split(s, [c])| ==> c !in Split(s, [c])[k]
  {
    SplitPiecesAvoidSep(s, [c]);
    forall k, j | 0 <= k < |Split(s, [c])| && 0 <= j < |Split(s, [c])[k]| ensures Split(s, [c])[k][j] != c {
      var p := Split(s, [c])[k];
      assert p[j..j + 1] == [p[j]];
      assert !OccursAt(p, [c], j);
    }
  }

  /**
   * With a one-character separator, a non-empty table name no longer
   * appears in the list `RemoveTable` leaves.
   */
  lemma RemovedTableNotListed(oldTableListStr: string, tblName: string, c: char)
    requires |tblName| > 0
    ensures tblName !in Split(Join(RemainingTables(oldTableListStr, tblName, [c]), [c]), [c])
  {
    var pieces := Split(oldTableListStr, [c]);
    var rest := RemainingTables(oldTableListStr, tblName, [c]);
    if |rest| == 0 {
      NoOccurrence([], c, 0);
      assert Split(Join(rest, [c]), [c]) == [[]];
    } else {
      PiecesAvoidChar(oldTableListStr, c);
      forall k | 0 <= k < |rest| ensures c !in rest[k] {
        assert rest[k] in multiset(rest);
        assert rest[k] in multiset(pieces);
      }
      SplitJoinSingle(rest, c);
    }
  }
}
