/** The order in which a file of the address manager is written and read, as a stream of
    numbers and records. */
module AddrStream {
  import opened AddrFile
  import opened AddrRestore
  import opened AddrState
  import opened Wrappers

  datatype Token = Num(n: int) | Rec(r: Record)

  const KEY_SIZE: nat := 32

  /** The bit that keeps the first readers from taking the number of buckets for their own. */
  const MARK: nat := 0x4000_0000

  /** A number with that bit turned over. */
  function Flip(n: int): int {
    if (n / MARK) % 2 == 1 then n - MARK else n + MARK
  }

  lemma FlipBack(n: int)
    ensures Flip(Flip(n)) == n
    ensures 0 <= n < 1073741824 ==> Flip(n) == n + 1073741824
  {
  }

  function RecTokens(recs: seq<Record>): (s: seq<Token>)
    ensures |s| == |recs| && forall i :: 0 <= i < |s| ==> s[i] == Rec(recs[i])
  {
    seq(|recs|, i requires 0 <= i < |recs| => Rec(recs[i]))
  }

  function NumTokens(ns: seq<int>): (s: seq<Token>)
    ensures |s| == |ns| && forall i :: 0 <= i < |s| ==> s[i] == Num(ns[i])
  {
    seq(|ns|, i requires 0 <= i < |ns| => Num(ns[i]))
  }

  function BucketTokens(buckets: seq<seq<int>>): seq<Token> {
    if buckets == [] then [] else
      var n := |buckets| - 1;
      BucketTokens(buckets[..n]) + [Num(|buckets[n]|)] + NumTokens(buckets[n])
  }

  function Header(key: nat, f: File): seq<Token> {
    [Num(f.nVersion), Num(KEY_SIZE), Num(key), Num(f.nNew), Num(f.nTried), Num(Flip(f.nUBuckets))]
  }

  function Tokens(key: nat, f: File): seq<Token> {
    Header(key, f) + RecTokens(f.news) + RecTokens(f.trieds) + BucketTokens(f.buckets)
  }

  // ---------------------------------------------------------------------- reading

  function ReadRecs(s: seq<Token>, n: int): Option<(seq<Record>, seq<Token>)>
    decreases if n < 0 then 0 else n
  {
    if n <= 0 then Some(([], s))
    else if s == [] || !s[0].Rec? then None
    else match ReadRecs(s[1..], n - 1)
         case None => None
         case Some((recs, rest)) => Some(([s[0].r] + recs, rest))
  }

  function ReadNums(s: seq<Token>, n: int): Option<(seq<int>, seq<Token>)>
    decreases if n < 0 then 0 else n
  {
    if n <= 0 then Some(([], s))
    else if s == [] || !s[0].Num? then None
    else match ReadNums(s[1..], n - 1)
         case None => None
         case Some((ns, rest)) => Some(([s[0].n] + ns, rest))
  }

  function ReadBuckets(s: seq<Token>, n: int): Option<(seq<seq<int>>, seq<Token>)>
    decreases if n < 0 then 0 else n
  {
    if n <= 0 then Some(([], s))
    else if s == [] || !s[0].Num? then None
    else match ReadNums(s[1..], s[0].n)
         case None => None
         case Some((ns, more)) =>
           match ReadBuckets(more, n - 1)
           case None => None
           case Some((buckets, rest)) => Some(([ns] + buckets, rest))
  }

  /** The key and the file that are read; none when the stream ends too early or the key has
      another size. What follows is left. */
  function Parse(s: seq<Token>): Option<(nat, File)> {
    if |s| < 6 || (exists i :: 0 <= i < 6 && !s[i].Num?) || s[0].n < 0 || s[2].n < 0 || s[1].n != KEY_SIZE then None
    else
      var nVersion, nNew, nTried := s[0].n, s[3].n, s[4].n;
      var nUBuckets := if nVersion != 0 then Flip(s[5].n) else s[5].n;
      match ReadRecs(s[6..], nNew)
      case None => None
      case Some((news, s1)) =>
        match ReadRecs(s1, nTried)
        case None => None
        case Some((trieds, s2)) =>
          match ReadBuckets(s2, nUBuckets)
          case None => None
          case Some((buckets, _)) =>
            Some((s[2].n, File(nVersion, nNew, nTried, nUBuckets, news, trieds, buckets)))
  }

  lemma {:induction false} ReadRecsBack(recs: seq<Record>, rest: seq<Token>)
    ensures ReadRecs(RecTokens(recs) + rest, |recs|) == Some((recs, rest))
  {
    var s := RecTokens(recs) + rest;
    if recs == [] {
      assert s == rest;
    } else {
      assert s[1..] == RecTokens(recs[1..]) + rest;
      ReadRecsBack(recs[1..], rest);
      assert recs == [recs[0]] + recs[1..];
    }
  }

  lemma {:induction false} ReadNumsBack(ns: seq<int>, rest: seq<Token>)
    ensures ReadNums(NumTokens(ns) + rest, |ns|) == Some((ns, rest))
  {
    var s := NumTokens(ns) + rest;
    if ns == [] {
      assert s == rest;
    } else {
      assert s[1..] == NumTokens(ns[1..]) + rest;
      ReadNumsBack(ns[1..], rest);
      assert ns == [ns[0]] + ns[1..];
    }
  }

  /** The tokens of buckets, first bucket first. */
  lemma {:induction false} BucketsFirst(buckets: seq<seq<int>>)
    requires buckets != []
    ensures BucketTokens(buckets) == [Num(|buckets[0]|)] + NumTokens(buckets[0]) + BucketTokens(buckets[1..])
  {
    var n := |buckets| - 1;
    if n > 0 {
      BucketsFirst(buckets[..n]);
      assert buckets[..n][1..] == buckets[1..][..n - 1];
      assert buckets[1..][n - 1] == buckets[n];
    } else {
      assert buckets[..0] == [] && buckets[1..] == [];
    }
  }

  lemma {:induction false} ReadBucketsBack(buckets: seq<seq<int>>, rest: seq<Token>)
    ensures ReadBuckets(BucketTokens(buckets) + rest, |buckets|) == Some((buckets, rest))
  {
    var s := BucketTokens(buckets) + rest;
    if buckets == [] {
      assert s == rest;
    } else {
      BucketsFirst(buckets);
      var more := BucketTokens(buckets[1..]) + rest;
      assert s[1..] == NumTokens(buckets[0]) + more;
      ReadNumsBack(buckets[0], more);
      ReadBucketsBack(buckets[1..], rest);
      assert buckets == [buckets[0]] + buckets[1..];
    }
  }

  /** What was written is read back. */
  lemma ParseTokens(key: nat, f: File)
    requires f.nVersion != 0 && f.nNew == |f.news| && f.nTried == |f.trieds| && f.nUBuckets == |f.buckets|
    ensures Parse(Tokens(key, f)) == Some((key, f))
  {
    hide ReadRecs, ReadBuckets, RecTokens, BucketTokens, Flip, Parse;
    FlipBack(f.nUBuckets);
    ParseBody(key, f, Flip(f.nUBuckets));
  }

  /** A file of version 0 has its number of buckets as it is. */
  lemma ParseOld(key: nat, f: File)
    requires f.nVersion == 0 && f.nNew == |f.news| && f.nTried == |f.trieds| && f.nUBuckets == |f.buckets|
    ensures Parse([Num(0), Num(32), Num(key), Num(f.nNew), Num(f.nTried), Num(f.nUBuckets)]
                  + RecTokens(f.news) + RecTokens(f.trieds) + BucketTokens(f.buckets)) == Some((key, f))
  {
    hide ReadRecs, ReadBuckets, RecTokens, BucketTokens, Flip, Parse;
    ParseBody(key, f, f.nUBuckets);
  }

  lemma ParseBody(key: nat, f: File, nUBuckets: int)
    requires f.nNew == |f.news| && f.nTried == |f.trieds| && f.nUBuckets == |f.buckets|
    requires f.nUBuckets == if f.nVersion != 0 then Flip(nUBuckets) else nUBuckets
    ensures Parse([Num(f.nVersion), Num(KEY_SIZE), Num(key), Num(f.nNew), Num(f.nTried), Num(nUBuckets)]
                  + RecTokens(f.news) + RecTokens(f.trieds) + BucketTokens(f.buckets)) == Some((key, f))
  {
    hide ReadRecs, ReadBuckets, RecTokens, BucketTokens, Flip;
    var header := [Num(f.nVersion), Num(KEY_SIZE), Num(key), Num(f.nNew), Num(f.nTried), Num(nUBuckets)];
    var s := header + RecTokens(f.news) + RecTokens(f.trieds) + BucketTokens(f.buckets);
    var s2 := BucketTokens(f.buckets);
    var s1 := RecTokens(f.trieds) + s2;
    assert s[..6] == header;
    assert forall i :: 0 <= i < 6 ==> s[i] == s[..6][i] && s[i].Num?;
    assert s[6..] == RecTokens(f.news) + s1;
    ReadRecsBack(f.news, s1);
    ReadRecsBack(f.trieds, s2);
    assert s2 + [] == s2;
    ReadBucketsBack(f.buckets, []);
  }

  /** What is written starts with version 1, the size of the key, the key and the two counts. The
      first readers, which do not look at the version, find more than 2^30 buckets. */
  lemma SavedHeader(k: Keyed, s: State)
    requires s.idCount >= 0
    ensures Tokens(k.key, Save(s))[..6]
         == [Num(1), Num(32), Num(k.key), Num(s.nNew), Num(s.nTried), Num(1024 + 1073741824)]
  {
    FlipBack(1024);
  }

  /** Written and read again, a consistent manager is restored, in the same places of the
      tables, and the result is consistent. */
  lemma FileRoundTrip(k: Keyed, s: State)
    requires Structure(k, s)
    ensures s.idCount >= 0 && Sane(Save(s)) && Parse(Tokens(k.key, Save(s))) == Some((k.key, Save(s)))
    ensures Restored(s, Load(k, Save(s)), Written(s)) && Structure(k, Load(k, Save(s)))
    ensures Inv(k, s) ==> Inv(k, Load(k, Save(s)))
  {
    hide Structure, Inv, Load, Parse, Tokens, Restored;
    RoundTrip(k, s);
    SaveSane(k, s);
    ParseTokens(k.key, Save(s));
  }

  lemma {:induction false} RecsCount(s: seq<Token>, n: int)
    ensures ReadRecs(s, n).Some? ==> |ReadRecs(s, n).value.0| == if n < 0 then 0 else n
    decreases if n < 0 then 0 else n
  {
    if n > 0 && s != [] { RecsCount(s[1..], n - 1); }
  }

  lemma {:induction false} BucketsCount(s: seq<Token>, n: int)
    ensures ReadBuckets(s, n).Some? ==> |ReadBuckets(s, n).value.0| == if n < 0 then 0 else n
    decreases if n < 0 then 0 else n
  {
    if n > 0 && s != [] && s[0].Num? {
      match ReadNums(s[1..], s[0].n)
      case None =>
      case Some((ns, more)) => BucketsCount(more, n - 1);
    }
  }

  /** What is read has the counts that were announced, if those are not negative. */
  lemma ParseCounts(s: seq<Token>)
    requires Parse(s).Some?
    ensures var f := Parse(s).value.1; f.nNew >= 0 && f.nTried >= 0 ==> Counts(f)
  {
    hide ReadRecs, ReadBuckets;
    var f := Parse(s).value.1;
    RecsCount(s[6..], f.nNew);
    var s1 := ReadRecs(s[6..], f.nNew).value.1;
    RecsCount(s1, f.nTried);
    BucketsCount(ReadRecs(s1, f.nTried).value.1, f.nUBuckets);
  }

  lemma TokensOf(key: nat, s: State)
    requires s.idCount >= 0
    ensures Tokens(key, Save(s))
         == [Num(VERSION), Num(KEY_SIZE), Num(key), Num(s.nNew), Num(s.nTried), Num(Flip(NEW_BUCKET_COUNT))]
            + RecTokens(Records(s, IdsBelow(s, s.idCount, false))) + RecTokens(Records(s, IdsBelow(s, s.idCount, true)))
            + BucketTokens(AllBuckets(s, NEW_BUCKET_COUNT))
  {
    hide RecTokens, BucketTokens, Flip, IdsBelow, BucketIndices;
    SavedBuckets(s);
  }

  lemma NoBuckets(s: State)
    ensures BucketTokens(AllBuckets(s, 0)) == []
  {
  }

  /** What is written for one more bucket. */
  lemma BucketsNext(s: State, n: nat)
    ensures BucketTokens(AllBuckets(s, n + 1))
         == BucketTokens(AllBuckets(s, n))
             + ([Num(|BucketIndices(s, n, BUCKET_SIZE)|)] + NumTokens(BucketIndices(s, n, BUCKET_SIZE)))
  {
    hide BucketIndices, NumTokens;
    var b := AllBuckets(s, n + 1);
    assert b[..n] == AllBuckets(s, n);
  }

  // ----------------------------------------------------------- the loops that read

  /** The records read so far, before those still to be read. */
  function After<T>(first: seq<T>, more: Option<(seq<T>, seq<Token>)>): Option<(seq<T>, seq<Token>)> {
    match more
    case None => None
    case Some((xs, rest)) => Some((first + xs, rest))
  }

  lemma AfterEnds<T>(xs: seq<T>, rest: seq<Token>, more: Option<(seq<T>, seq<Token>)>)
    ensures After([], more) == more && After(xs, Some(([], rest))) == Some((xs, rest))
  {
    assert xs + [] == xs;
    if more.Some? { assert [] + more.value.0 == more.value.0; }
  }

  lemma AfterMore<T>(first: seq<T>, x: T, more: Option<(seq<T>, seq<Token>)>)
    ensures After(first, After([x], more)) == After(first + [x], more)
  {
    if more.Some? { assert first + ([x] + more.value.0) == (first + [x]) + more.value.0; }
  }

  method ReadRecords(s: seq<Token>, count: int) returns (r: Option<(seq<Record>, seq<Token>)>)
    ensures r == ReadRecs(s, count)
  {
    var recs: seq<Record>, rest, n := [], s, 0;
    AfterEnds(recs, rest, ReadRecs(s, count));
    while n < count
      invariant 0 <= n && (n <= count || n == 0)
      invariant ReadRecs(s, count) == After(recs, ReadRecs(rest, count - n))
    {
      if rest == [] || !rest[0].Rec? { return None; }
      AfterMore(recs, rest[0].r, ReadRecs(rest[1..], count - n - 1));
      recs, rest, n := recs + [rest[0].r], rest[1..], n + 1;
    }
    AfterEnds(recs, rest, ReadRecs(s, count));
    r := Some((recs, rest));
  }

  method ReadNumbers(s: seq<Token>, count: int) returns (r: Option<(seq<int>, seq<Token>)>)
    ensures r == ReadNums(s, count)
  {
    var ns: seq<int>, rest, n := [], s, 0;
    AfterEnds(ns, rest, ReadNums(s, count));
    while n < count
      invariant 0 <= n && (n <= count || n == 0)
      invariant ReadNums(s, count) == After(ns, ReadNums(rest, count - n))
    {
      if rest == [] || !rest[0].Num? { return None; }
      AfterMore(ns, rest[0].n, ReadNums(rest[1..], count - n - 1));
      ns, rest, n := ns + [rest[0].n], rest[1..], n + 1;
    }
    AfterEnds(ns, rest, ReadNums(s, count));
    r := Some((ns, rest));
  }

  method ReadTable(s: seq<Token>, count: int) returns (r: Option<(seq<seq<int>>, seq<Token>)>)
    ensures r == ReadBuckets(s, count)
  {
    var buckets: seq<seq<int>>, rest, n := [], s, 0;
    AfterEnds(buckets, rest, ReadBuckets(s, count));
    while n < count
      invariant 0 <= n && (n <= count || n == 0)
      invariant ReadBuckets(s, count) == After(buckets, ReadBuckets(rest, count - n))
    {
      if rest == [] || !rest[0].Num? { return None; }
      var bucket := ReadNumbers(rest[1..], rest[0].n);
      if bucket.None? { return None; }
      AfterMore(buckets, bucket.value.0, ReadBuckets(bucket.value.1, count - n - 1));
      buckets, rest, n := buckets + [bucket.value.0], bucket.value.1, n + 1;
    }
    AfterEnds(buckets, rest, ReadBuckets(s, count));
    r := Some((buckets, rest));
  }

  method ReadFile(s: seq<Token>) returns (r: Option<(nat, File)>)
    ensures r == Parse(s)
  {
    hide ReadRecs, ReadBuckets;
    if |s| < 6 || !s[0].Num? || !s[1].Num? || !s[2].Num? || !s[3].Num? || !s[4].Num? || !s[5].Num? { return None; }
    if s[0].n < 0 || s[2].n < 0 || s[1].n != KEY_SIZE { return None; }
    var nVersion, nNew, nTried, nUBuckets := s[0].n, s[3].n, s[4].n, s[5].n;
    if nVersion != 0 { nUBuckets := Flip(nUBuckets); }
    var news := ReadRecords(s[6..], nNew);
    if news.None? { return None; }
    var trieds := ReadRecords(news.value.1, nTried);
    if trieds.None? { return None; }
    var buckets := ReadTable(trieds.value.1, nUBuckets);
    if buckets.None? { return None; }
    r := Some((s[2].n, File(nVersion, nNew, nTried, nUBuckets, news.value.0, trieds.value.0, buckets.value.0)));
  }
}
