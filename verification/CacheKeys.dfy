/** The keys of the cache: a prefix per kind of data, then the parts, joined by colons. */
module CacheKeys {
  import opened Options

  datatype CachePrefix =
    | Toll | TollLane | Price | Blacklist | Whitelist | ClosedCycleTransitionStage
    | WbRoute | ExList | ExPriceList | SubscriptionHistory | IpBlock
    | ConnectionServer | ConnectionUser
    | DbRetryTcocSession | DbRetryConnServer | DbRetryTcocUser
    | TcdRatingBoo | TcdRatingBect

  function AsStr(p: CachePrefix): string {
    match p
    case Toll => "1_toll"
    case TollLane => "2_toll_lane"
    case Price => "3_price"
    case Blacklist => "4_blacklist"
    case Whitelist => "5_whitelist"
    case ClosedCycleTransitionStage => "7_closed_cycle_transition_stage"
    case WbRoute => "8_wb_route"
    case ExList => "9_ex_list"
    case ExPriceList => "10_ex_price_list"
    case SubscriptionHistory => "11_subscription_history"
    case IpBlock => "12_ip_block"
    case ConnectionServer => "13_conn_server"
    case ConnectionUser => "14_conn_user"
    case DbRetryTcocSession => "db_retry_tcoc_session"
    case DbRetryConnServer => "db_retry_conn_server"
    case DbRetryTcocUser => "db_retry_tcoc_user"
    case TcdRatingBoo => "15_tcd_rating_boo"
    case TcdRatingBect => "16_tcd_rating_bect"
  }

  /** The parts of a key, each after its colon. */
  function Parts(parts: seq<string>): string {
    if parts == [] then "" else ":" + parts[0] + Parts(parts[1..])
  }

  function Key(p: CachePrefix, parts: seq<string>): string {
    AsStr(p) + Parts(parts)
  }

  method GenKey(p: CachePrefix, parts: seq<string>) returns (key: string)
    ensures key == Key(p, parts)
  {
    key := AsStr(p);
    for i := 0 to |parts|
      invariant key + Parts(parts[i..]) == Key(p, parts)
    {
      assert parts[i..][1..] == parts[i + 1..];
      assert key + (":" + parts[i] + Parts(parts[i + 1..])) == key + ":" + parts[i] + Parts(parts[i + 1..]);
      key := key + ":" + parts[i];
    }
  }

  /** What a key of three parts looks like. */
  lemma KeyOfThree(p: CachePrefix, a: string, b: string, c: string)
    ensures Key(p, [a, b, c]) == AsStr(p) + ":" + a + ":" + b + ":" + c
  {
    var parts := [a, b, c];
    assert parts[1..] == [b, c] && [b, c][1..] == [c] && [c][1..] == [];
    assert Parts([c]) == ":" + c;
    assert Parts([b, c]) == ":" + b + Parts([c]);
    assert Parts(parts) == ":" + a + Parts([b, c]);
  }

  // ------------------------------------------------------------ no prefix begins another

  /** The one prefix a key can begin with, read off at most four of its characters. */
  function Owner(key: string): Option<CachePrefix> {
    if |key| < 2 then None
    else if key[0] == 'd' then
      if |key| < 15 then None
      else if key[9] == 'c' then Some(DbRetryConnServer)
      else if key[14] == 's' then Some(DbRetryTcocSession)
      else Some(DbRetryTcocUser)
    else if key[1] == '_' then
      match key[0]
      case '1' => Some(Toll)
      case '2' => Some(TollLane)
      case '3' => Some(Price)
      case '4' => Some(Blacklist)
      case '5' => Some(Whitelist)
      case '7' => Some(ClosedCycleTransitionStage)
      case '8' => Some(WbRoute)
      case _ => Some(ExList)
    else
      match key[1]
      case '0' => Some(ExPriceList)
      case '1' => Some(SubscriptionHistory)
      case '2' => Some(IpBlock)
      case '3' => Some(ConnectionServer)
      case '4' => Some(ConnectionUser)
      case '5' => Some(TcdRatingBoo)
      case _ => Some(TcdRatingBect)
  }

  lemma OwnerOf(p: CachePrefix, key: string)
    requires AsStr(p) <= key
    ensures Owner(key) == Some(p)
  {
    var s := AsStr(p);
    assert key[0] == s[0] && key[1] == s[1];
    if p.DbRetryConnServer? || p.DbRetryTcocSession? || p.DbRetryTcocUser? {
      assert key[9] == s[9] && key[14] == s[14];
    }
  }

  lemma TwoOwners(p: CachePrefix, q: CachePrefix, key: string)
    requires AsStr(p) <= key && AsStr(q) <= key
    ensures p == q
  {
    OwnerOf(p, key);
    OwnerOf(q, key);
  }

  lemma PrefixFree(p: CachePrefix, q: CachePrefix)
    ensures AsStr(p) <= AsStr(q) <==> p == q
  {
    if AsStr(p) <= AsStr(q) {
      TwoOwners(p, q, AsStr(q));
    }
  }

  /** A search by prefix finds the keys of that prefix and of no other. */
  lemma KeyHasOnePrefix(p: CachePrefix, q: CachePrefix, parts: seq<string>)
    ensures AsStr(p) <= Key(q, parts) <==> p == q
  {
    if AsStr(p) <= Key(q, parts) {
      TwoOwners(p, q, Key(q, parts));
    }
  }

  // ------------------------------------------------------------ taking a key apart

  predicate ColonFree(s: string) {
    ':' !in s
  }

  function FirstColon(s: string): (i: nat)
    ensures i <= |s| && ColonFree(s[..i]) && (i < |s| ==> s[i] == ':')
  {
    if s == [] || s[0] == ':' then 0
    else
      var i := 1 + FirstColon(s[1..]);
      assert s[..i] == [s[0]] + s[1..][..i - 1];
      i
  }

  /** Splits at the first `n - 1` colons. */
  function SplitN(s: string, n: nat): (parts: seq<string>)
    requires n >= 1
    ensures 1 <= |parts| <= n
  {
    var i := FirstColon(s);
    if n == 1 || i == |s| then [s] else [s[..i]] + SplitN(s[i + 1..], n - 1)
  }

  lemma {:induction false} FirstColonAt(a: string, b: string)
    requires ColonFree(a) && (b == [] || b[0] == ':')
    ensures FirstColon(a + b) == |a|
    decreases |a|
  {
    if a == [] {
      assert a + b == b;
    } else {
      assert a[0] != ':' && (a + b)[1..] == a[1..] + b;
      FirstColonAt(a[1..], b);
    }
  }

  /** Only the last part may hold colons of its own. */
  predicate Splittable(parts: seq<string>) {
    forall i :: 0 <= i < |parts| - 1 ==> ColonFree(parts[i])
  }

  lemma SplitHead(head: string, tail: string, n: nat)
    requires ColonFree(head) && n >= 2
    ensures SplitN(head + (":" + tail), n) == [head] + SplitN(tail, n - 1)
  {
    var s := head + (":" + tail);
    FirstColonAt(head, ":" + tail);
    assert s[..|head|] == head && s[|head| + 1..] == tail;
  }

  lemma {:induction false} SplitParts(head: string, parts: seq<string>)
    requires ColonFree(head) && Splittable(parts)
    ensures SplitN(head + Parts(parts), |parts| + 1) == [head] + parts
    decreases |parts|
  {
    if parts == [] {
      assert head + Parts(parts) == head;
    } else {
      var rest := parts[1..];
      var tail := parts[0] + Parts(rest);
      assert Parts(parts) == ":" + tail;
      SplitHead(head, tail, |parts| + 1);
      if rest == [] {
        assert tail == parts[0] && parts == [parts[0]];
      } else {
        SplitParts(parts[0], rest);
        assert [parts[0]] + rest == parts;
      }
    }
  }

  lemma ShortPrefixColonFree(p: CachePrefix)
    requires |AsStr(p)| <= 11
    ensures ColonFree(AsStr(p))
  {
  }

  lemma MediumPrefixColonFree(p: CachePrefix)
    requires 11 < |AsStr(p)| <= 18
    ensures ColonFree(AsStr(p))
  {
  }

  lemma LongPrefixColonFree(p: CachePrefix)
    requires 18 < |AsStr(p)|
    ensures ColonFree(AsStr(p))
  {
  }

  lemma PrefixColonFree(p: CachePrefix)
    ensures ColonFree(AsStr(p))
  {
    var n := |AsStr(p)|;
    if n <= 11 {
      ShortPrefixColonFree(p);
    } else if n <= 18 {
      MediumPrefixColonFree(p);
    } else {
      LongPrefixColonFree(p);
    }
  }

  /** Splitting undoes joining. */
  lemma SplitKey(p: CachePrefix, parts: seq<string>)
    requires Splittable(parts)
    ensures SplitN(Key(p, parts), |parts| + 1) == [AsStr(p)] + parts
  {
    PrefixColonFree(p);
    SplitParts(AsStr(p), parts);
  }

  /** Equal keys come from equal parts. */
  lemma KeyInjective(p: CachePrefix, parts: seq<string>, q: CachePrefix, others: seq<string>)
    requires |parts| == |others| && Splittable(parts) && Splittable(others)
    ensures Key(p, parts) == Key(q, others) <==> p == q && parts == others
  {
    if Key(p, parts) == Key(q, others) {
      SplitKey(p, parts);
      SplitKey(q, others);
      assert ([AsStr(p)] + parts)[0] == ([AsStr(q)] + others)[0];
      assert ([AsStr(p)] + parts)[1..] == parts && ([AsStr(q)] + others)[1..] == others;
      PrefixFree(p, q);
    }
  }

  /** A colon in a part that is not the last can make two keys collide. */
  lemma ColonsCollide(p: CachePrefix)
    ensures Key(p, ["a:b", "c"]) == Key(p, ["a", "b:c"])
  {
  }
}
