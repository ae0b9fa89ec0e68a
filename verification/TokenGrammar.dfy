/**
 What the token list accepts, and what it makes of it, in terms of the text alone
 (crates/app/cce-admission/src/config.rs).
 */
module TokenGrammar {
  import opened Text
  import opened TokenList

  // ---------------------------------------------------------------- the project ids of an item

  /** The number a part of the project list stands for. */
  function IdOf(part: string): Option<int> { ParseI64(Trim(part)) }

  predicate Blank(part: string) { Trim(part) == "" }

  /** Every part that is not blank is an id. */
  predicate AllIds(parts: seq<string>) { forall i :: 0 <= i < |parts| && !Blank(parts[i]) ==> IdOf(parts[i]).Some? }

  lemma {:induction false} IdsAcceptedIff(parts: seq<string>)
    ensures ParseIds(Pieces(parts)).Ok? <==> AllIds(parts)
    ensures ParseIds(Pieces(parts)).Err? ==> ParseIds(Pieces(parts)).reason == BadProject
  {
    hide ParseI64, Trim;
    if parts != [] {
      var p, rest := parts[0], parts[1..];
      IdsAcceptedIff(rest);
      PiecesFrom(parts, 0);
      assert parts[0..] == parts;
      ParseIdsCons(Trim(p), Pieces(rest));
      assert AllIds(parts) <==> (!Blank(p) ==> IdOf(p).Some?) && AllIds(rest) by {
        assert forall i :: 0 <= i < |rest| ==> parts[i + 1] == rest[i];
        assert forall i :: 0 < i < |parts| ==> parts[i] == rest[i - 1];
      }
    }
  }

  /** Some part stands for the number. */
  predicate HasId(parts: seq<string>, n: int) { exists i :: 0 <= i < |parts| && IdOf(parts[i]) == Some(n) }

  lemma {:induction false} IdsAre(parts: seq<string>, n: int)
    requires ParseIds(Pieces(parts)).Ok?
    ensures n in ParseIds(Pieces(parts)).value <==> HasId(parts, n)
  {
    hide ParseI64, Trim;
    if parts != [] {
      var p, rest := parts[0], parts[1..];
      PiecesFrom(parts, 0);
      assert parts[0..] == parts;
      ParseIdsCons(Trim(p), Pieces(rest));
      BlankHasNoId(p);
      IdsAre(rest, n);
      assert HasId(parts, n) <==> IdOf(p) == Some(n) || HasId(rest, n) by {
        if i :| 0 <= i < |rest| && IdOf(rest[i]) == Some(n) { assert parts[i + 1] == rest[i]; }
        if i :| 0 < i < |parts| && IdOf(parts[i]) == Some(n) { assert parts[i] == rest[i - 1]; }
      }
    }
  }

  lemma BlankHasNoId(p: string)
    ensures Blank(p) ==> IdOf(p) == None
  {
    hide Trim;
  }

  // ---------------------------------------------------------------- one item

  /** `token@part,part,...`, with `:quota` behind it if there is one. */
  function ItemText(token: string, parts: seq<string>, quota: Option<string>): string
  {
    token + ['@'] + ScopeText(parts, quota)
  }

  function ScopeText(parts: seq<string>, quota: Option<string>): string
  {
    if quota.None? then Join(parts, ',') else Join(parts, ',') + [':'] + quota.value
  }

  predicate FreeOf(parts: seq<string>, c: char) { forall i :: 0 <= i < |parts| ==> c !in parts[i] }

  lemma {:induction false} JoinIsFree(parts: seq<string>, c: char)
    requires FreeOf(parts, c) && c != ','
    ensures c !in Join(parts, ',')
  {
    if |parts| > 1 { JoinIsFree(parts[1..], c); }
  }

  /** A quota, if one is written, is a positive number that fits a `u64`. */
  predicate QuotaFits(quota: Option<string>)
  {
    quota.Some? ==> ParseU64(Trim(quota.value)).Some? && ParseU64(Trim(quota.value)).value > 0
  }

  function QuotaReason(quota: string): Reason { if ParseU64(Trim(quota)).None? then BadQuota else ZeroQuota }

  lemma ScopeParses(parts: seq<string>, quota: Option<string>)
    requires FreeOf(parts, ':')
    ensures ParseScope(ScopeText(parts, quota)) ==
            if !QuotaFits(quota) then Err(QuotaReason(quota.value))
            else Ok((if quota.None? then None else ParseU64(Trim(quota.value)), Join(parts, ',')))
  {
    hide SplitOnce, Join, Trim, ParseU64;
    JoinIsFree(parts, ':');
    if quota.Some? { SplitOnceAfter(Join(parts, ','), ':', quota.value); } else { assert SplitOnce(Join(parts, ','), ':') == None; }
  }

  /**
   An item with a scope is accepted exactly when its token is not blank, its quota, if there is one, is a
   positive `u64`, and every part of its project list that is not blank is an `i64`; the reason for which
   it is not is the first of these that fails.
   */
  lemma ItemAcceptedIff(token: string, parts: seq<string>, quota: Option<string>)
    requires '@' !in token && parts != [] && FreeOf(parts, ',') && FreeOf(parts, ':')
    ensures var r := ParseItem(ItemText(token, parts, quota));
            && (r.Ok? <==> !Blank(token) && QuotaFits(quota) && AllIds(parts))
            && (r.Err? ==> r.reason == if Blank(token) then EmptyToken else if !QuotaFits(quota) then QuotaReason(quota.value) else BadProject)
  {
    hide SplitOnce, Join, Trim, ParseU64, ParseScope, ScopeText, ParseIds, Pieces, Split, SortDedup, AllIds, QuotaFits, QuotaReason;
    SplitOnceAfter(token, '@', ScopeText(parts, quota));
    ScopeParses(parts, quota);
    SplitJoin(parts, ',');
    IdsAcceptedIff(parts);
  }

  /** Its entry is the trimmed token, the quota, and exactly the numbers of the list, in ascending order. */
  lemma ItemEntry(token: string, parts: seq<string>, quota: Option<string>, n: int)
    requires '@' !in token && parts != [] && FreeOf(parts, ',') && FreeOf(parts, ':')
    requires ParseItem(ItemText(token, parts, quota)).Ok?
    ensures var e := ParseItem(ItemText(token, parts, quota)).value;
            && e.token == Trim(token) && Ascending(e.projects) && (n in e.projects <==> HasId(parts, n))
            && e.quotaBytes == if quota.None? then None else ParseU64(Trim(quota.value))
  {
    hide SplitOnce, Join, Trim, ParseU64, ParseScope, ScopeText, ParseIds, Pieces, Split, SortDedup, AllIds, QuotaFits, HasId, Ascending;
    ItemAcceptedIff(token, parts, quota);
    SplitOnceAfter(token, '@', ScopeText(parts, quota));
    ScopeParses(parts, quota);
    SplitJoin(parts, ',');
    IdsAcceptedIff(parts);
    IdsAre(parts, n);
    SortDedupSorts(ParseIds(Pieces(parts)).value);
  }

  /** An item without a scope is a token without projects and quota. */
  lemma BareItem(item: string)
    requires '@' !in item
    ensures ParseItem(item) == if item == "" then Err(EmptyToken) else Ok(TokenEntry(item, [], None))
  {
    assert SplitOnce(item, '@') == None;
  }

  lemma {:induction false} JoinOfSplit(s: string, c: char)
    ensures Join(Split(s, c), c) == s
    decreases |s|
  {
    match SplitOnce(s, c) {
      case None =>
      case Some((head, tail)) => JoinOfSplit(tail, c);
    }
  }

  lemma {:induction false} SplitKeepsFree(s: string, c: char, d: char)
    requires d !in s
    ensures FreeOf(Split(s, c), d)
    decreases |s|
  {
    match SplitOnce(s, c) {
      case None =>
      case Some((head, tail)) => SplitKeepsFree(tail, c, d);
    }
  }

  /** Every item with an `@` has that form. */
  lemma ItemForm(item: string) returns (token: string, parts: seq<string>, quota: Option<string>)
    requires '@' in item
    ensures item == ItemText(token, parts, quota)
    ensures '@' !in token && parts != [] && FreeOf(parts, ',') && FreeOf(parts, ':')
  {
    hide Split, Join;
    var (t, scope) := SplitOnce(item, '@').value;
    token := t;
    var (ids, q) := match SplitOnce(scope, ':') case None => (scope, None) case Some((p, q)) => (p, Some(q));
    assert ':' !in ids;
    parts, quota := Split(ids, ','), q;
    JoinOfSplit(ids, ',');
    SplitKeepsFree(ids, ',', ':');
  }

  // ---------------------------------------------------------------- the whole list

  /** Every item that is not blank is accepted. */
  predicate AllAccepted(items: seq<string>) { forall i :: 0 <= i < |items| && !Blank(items[i]) ==> ParseItem(Trim(items[i])).Ok? }

  /** The entries of the items that are not blank, in their order. */
  function EntriesOf(items: seq<string>): seq<TokenEntry>
    requires AllAccepted(items)
  {
    if items == [] then []
    else
      AcceptedRest(items);
      (if Blank(items[0]) then [] else [ParseItem(Trim(items[0])).value]) + EntriesOf(items[1..])
  }

  lemma AcceptedRest(items: seq<string>)
    requires items != []
    ensures AllAccepted(items) <==> (!Blank(items[0]) ==> ParseItem(Trim(items[0])).Ok?) && AllAccepted(items[1..])
  {
    hide Trim, ParseItem;
    assert forall i :: 0 <= i < |items[1..]| ==> items[i + 1] == items[1..][i];
    assert forall i :: 0 < i < |items| ==> items[i] == items[1..][i - 1];
  }

  lemma {:induction false} ItemsAcceptedIff(items: seq<string>)
    ensures ParseItems(Pieces(items)).Ok? <==> AllAccepted(items)
    ensures AllAccepted(items) ==> ParseItems(Pieces(items)) == Ok(EntriesOf(items))
  {
    hide ParseItem, Trim;
    if items != [] {
      ItemsAcceptedIff(items[1..]);
      AcceptedRest(items);
      PiecesFrom(items, 0);
      assert items[0..] == items;
      ParseItemsCons(Trim(items[0]), Pieces(items[1..]));
      if AllAccepted(items) { assert [] + EntriesOf(items[1..]) == EntriesOf(items[1..]); }
    }
  }

  lemma {:induction false} NoEntriesIff(items: seq<string>)
    requires AllAccepted(items)
    ensures EntriesOf(items) == [] <==> forall i :: 0 <= i < |items| ==> Blank(items[i])
  {
    hide ParseItem, Trim;
    if items != [] {
      AcceptedRest(items);
      NoEntriesIff(items[1..]);
      assert forall i :: 0 <= i < |items[1..]| ==> items[i + 1] == items[1..][i];
      assert forall i :: 0 < i < |items| ==> items[i] == items[1..][i - 1];
    }
  }

  /**
   A list is accepted exactly when some item is not blank and every item that is not is accepted; its
   entries are theirs, in their order.
   */
  lemma ListAcceptedIff(items: seq<string>)
    requires items != [] && FreeOf(items, ';')
    ensures var r := Parse(Join(items, ';'));
            && (r.Ok? <==> AllAccepted(items) && exists i :: 0 <= i < |items| && !Blank(items[i]))
            && (r.Ok? ==> r.value == EntriesOf(items))
  {
    hide ParseItem, Trim, ParseItems, Pieces, Split, Join, EntriesOf, AllAccepted;
    SplitJoin(items, ';');
    ItemsAcceptedIff(items);
    if AllAccepted(items) { NoEntriesIff(items); }
  }

  /** A project that is no number spoils the whole list. */
  lemma BadProjectIsRefused(before: seq<string>, token: string, bad: string, after: seq<string>)
    requires FreeOf(before, ';') && FreeOf(after, ';') && ';' !in token && ';' !in bad
    requires '@' !in token && ',' !in bad && ':' !in bad && !Blank(bad) && IdOf(bad).None?
    requires Trimmed(ItemText(token, [bad], None))
    ensures Parse(Join(before + [ItemText(token, [bad], None)] + after, ';')).Err?
  {
    hide ParseItem, Trim, Parse, Join, EntriesOf, ItemText, IdOf, Blank;
    var item := ItemText(token, [bad], None);
    var items := before + [item] + after;
    ItemAcceptedIff(token, [bad], None);
    assert !AllIds([bad]) by { assert !Blank([bad][0]) && IdOf([bad][0]).None?; }
    TrimTrims(item);
    ItemIsNotBlank(token, bad);
    assert ';' !in item by { OneItemIsFree(token, bad); }
    assert items[|before|] == item;
    ListAcceptedIff(items);
  }

  lemma ItemIsNotBlank(token: string, bad: string)
    requires Trimmed(ItemText(token, [bad], None))
    ensures !Blank(ItemText(token, [bad], None))
  {
    hide Trim, Join;
    TrimTrims(ItemText(token, [bad], None));
  }

  lemma OneItemIsFree(token: string, bad: string)
    requires ';' !in token && ';' !in bad
    ensures ';' !in ItemText(token, [bad], None)
  {}
}
