/** The file a search ends with: the packets found, in the order of their times. */
module PcapWriter {
  import opened Common
  import opened Pipeline
  import opened FileSearch
  import opened SearchReader

  /** What `pcap_dump` is given: the two halves of the time, the length, and the bytes. */
  datatype Record = Record(second: nat, fraction: nat, length: nat, bytes: seq<octet>)

  function RecordOf(p: Packet): Record {
    Record(p.time / 0x1_0000_0000, p.time % 0x1_0000_0000, |p.payload|, p.payload)
  }

  function Records(m: seq<Packet>): (r: seq<Record>)
    ensures |r| == |m| && forall i :: 0 <= i < |m| ==> r[i] == RecordOf(m[i])
  {
    seq(|m|, i requires 0 <= i < |m| => RecordOf(m[i]))
  }

  /** In a pcap file a packet follows four 32-bit numbers: its second, its fraction, and twice its length. */
  function RecordSize(r: Record): nat { 4 + 4 + 4 + 4 + |r.bytes| }

  /** The size of a pcap file: its header and its records. */
  function PcapSize(file: seq<Record>): nat {
    if file == [] then PCAP_HEADER else PcapSize(file[..|file| - 1]) + RecordSize(file[|file| - 1])
  }

  // ---------------------------------------------------------------- what the limit limits

  lemma {:induction false} TotalSizeSnoc(m: seq<Packet>, p: Packet)
    ensures TotalSize(m + [p]) == TotalSize(m) + SizeOf(p)
  {
    if m == [] {
      assert m + [p] == [p];
      assert [p][1..] == [];
    } else {
      assert (m + [p])[1..] == m[1..] + [p];
      TotalSizeSnoc(m[1..], p);
    }
  }

  /** The sizes counted are those of the records. */
  lemma {:induction false} PcapSizeIs(m: seq<Packet>)
    ensures PcapSize(Records(m)) == PCAP_HEADER + TotalSize(m)
  {
    if m != [] {
      var init, p := m[..|m| - 1], m[|m| - 1];
      PcapSizeIs(init);
      TotalSizeSnoc(init, p);
      assert init + [p] == m;
      assert Records(m)[..|m| - 1] == Records(init);
    }
  }

  /**
    Without a limit, or when all matches are to be counted, all are taken; otherwise the file made of those taken is not
    larger than the limit, and with the next one it would be. The size reported includes the one that went over.
   */
  lemma FoundFits(q: Query, m: seq<Packet>)
    ensures var r := Spend(q, m, PCAP_HEADER);
      && r.taken <= m && r.size == PcapSize(Records(if r.taken == m then m else m[..|r.taken| + 1]))
      && if q.limit == 0 || q.totalMatches then r.taken == m
         else
           && (r.taken == [] || PcapSize(Records(r.taken)) <= q.limit)
           && (r.taken == m || PcapSize(Records(m[..|r.taken| + 1])) > q.limit)
  {
    var r := Spend(q, m, PCAP_HEADER);
    TakenFits(q, m);
    PcapSizeIs(r.taken);
    PcapSizeIs(if r.taken == m then m else m[..|r.taken| + 1]);
    hide *;
  }

  /** The same of the sizes as they are counted. */
  lemma TakenFits(q: Query, m: seq<Packet>)
    ensures var r := Spend(q, m, PCAP_HEADER);
      && r.taken <= m && (r.taken != m ==> |r.taken| < |m|)
      && r.size == PCAP_HEADER + TotalSize(if r.taken == m then m else m[..|r.taken| + 1])
      && if q.limit == 0 || q.totalMatches then r.taken == m
         else
           && (r.taken == [] || PCAP_HEADER + TotalSize(r.taken) <= q.limit)
           && (r.taken == m || PCAP_HEADER + TotalSize(m[..|r.taken| + 1]) > q.limit)
  {
    SpendCounts(q, m, PCAP_HEADER);
    if OverLimit(q, PCAP_HEADER) {
      NothingFits(q, m);
    } else {
      SpendTakesWhatFits(q, m, PCAP_HEADER);
    }
    hide Spend, TotalSize;
  }

  lemma NothingFits(q: Query, m: seq<Packet>)
    requires OverLimit(q, PCAP_HEADER)
    ensures Spend(q, m, PCAP_HEADER).taken == [] && (m != [] ==> PCAP_HEADER + TotalSize(m[..1]) > q.limit)
  {}

  // ---------------------------------------------------------------- the file

  /** Earlier, or of the same time. */
  predicate NotLater(r: Record, s: Record) { r.second < s.second || (r.second == s.second && r.fraction <= s.fraction) }

  predicate InTimeOrder(file: seq<Record>) { forall i, j :: 0 <= i < j < |file| ==> NotLater(file[i], file[j]) }

  /** None of the packets in `heap` is earlier than one of those written. */
  ghost predicate WrittenFirst(file: seq<Record>, heap: seq<Packet>) {
    forall i, k :: 0 <= i < |file| && 0 <= k < |heap| ==> NotLater(file[i], RecordOf(heap[k]))
  }

  function Without(heap: seq<Packet>, k: nat): seq<Packet>
    requires k < |heap|
  {
    heap[..k] + heap[k + 1..]
  }

  lemma WithoutOne(heap: seq<Packet>, k: nat)
    requires k < |heap|
    ensures multiset(heap) == multiset(Without(heap, k)) + multiset{heap[k]}
    ensures multiset(Records(heap)) == multiset(Records(Without(heap, k))) + multiset{RecordOf(heap[k])}
  {
    assert heap == heap[..k] + [heap[k]] + heap[k + 1..];
    var r := Records(heap);
    assert r == r[..k] + [r[k]] + r[k + 1..] && Records(Without(heap, k)) == r[..k] + r[k + 1..];
  }

  predicate IsLeast(heap: seq<Packet>, k: nat)
    requires k < |heap|
  {
    forall j :: 0 <= j < |heap| ==> heap[k].time <= heap[j].time
  }

  lemma StaysFirst(file: seq<Record>, heap: seq<Packet>, k: nat)
    requires k < |heap| && IsLeast(heap, k) && WrittenFirst(file, heap) && InTimeOrder(file)
    ensures WrittenFirst(file + [RecordOf(heap[k])], Without(heap, k)) && InTimeOrder(file + [RecordOf(heap[k])])
  {
    forall j | 0 <= j < |heap| - 1
      ensures NotLater(RecordOf(heap[k]), RecordOf(Without(heap, k)[j]))
    {
      assert Without(heap, k)[j] == heap[if j < k then j else j + 1];
      TimesAgree(heap[k], Without(heap, k)[j]);
    }
    assert forall j :: 0 <= j < |heap| - 1 ==> Without(heap, k)[j] == heap[if j < k then j else j + 1];
    hide RecordOf, NotLater;
  }

  lemma TimesAgree(p: Packet, q: Packet)
    ensures NotLater(RecordOf(p), RecordOf(q)) <==> p.time <= q.time
  {}

  lemma {:induction false} LeastExists(heap: seq<Packet>) returns (k: nat)
    requires heap != []
    ensures k < |heap| && IsLeast(heap, k)
  {
    k := |heap| - 1;
    if |heap| > 1 {
      var init := heap[..|heap| - 1];
      var j := LeastExists(init);
      assert forall i :: 0 <= i < |init| ==> init[i] == heap[i];
      k := if heap[j].time <= heap[k].time then j else k;
    }
  }

  /**
    `write_pcap`: the packets found, ordered by time with a heap; which of several packets of one time it takes first is
    left open.
   */
  method WritePcap(found: seq<Packet>) returns (file: seq<Record>)
    ensures InTimeOrder(file) && multiset(file) == multiset(Records(found))
  {
    var heap := [];
    for i := 0 to |found|
      invariant heap == found[..i]
    {
      heap := heap + [found[i]];
    }
    assert found[..|found|] == found;
    file := [];
    while heap != []
      invariant InTimeOrder(file) && WrittenFirst(file, heap)
      invariant multiset(file) + multiset(Records(heap)) == multiset(Records(found))
      decreases |heap|
    {
      ghost var least := LeastExists(heap);
      var k: nat :| k < |heap| && IsLeast(heap, k);
      WithoutOne(heap, k);
      StaysFirst(file, heap, k);
      hide InTimeOrder, WrittenFirst, Records, RecordOf;
      file, heap := file + [RecordOf(heap[k])], Without(heap, k);
    }
  }

  /** However packets of one time are ordered, the file is as large as the packets found are together. */
  lemma SameSize(a: seq<Packet>, b: seq<Packet>)
    requires multiset(a) == multiset(b)
    ensures PcapSize(Records(a)) == PcapSize(Records(b))
  {
    PcapSizeIs(a);
    PcapSizeIs(b);
    SameTotal(a, b);
  }

  lemma PlaceOf(init: seq<Packet>, p: Packet, b: seq<Packet>) returns (k: nat)
    requires multiset(init + [p]) == multiset(b)
    ensures k < |b| && b[k] == p && multiset(init) == multiset(Without(b, k))
  {
    assert p in multiset(b);
    k :| k < |b| && b[k] == p;
    WithoutOne(b, k);
    hide Without;
    assert multiset(init) == multiset(b) - multiset{p};
  }

  lemma {:induction false} SameTotal(a: seq<Packet>, b: seq<Packet>)
    requires multiset(a) == multiset(b)
    ensures TotalSize(a) == TotalSize(b)
  {
    if a == [] {
      assert |b| == |multiset(b)| == 0;
    } else {
      var n := |a| - 1;
      var p := a[n];
      assert a == a[..n] + [p];
      var k := PlaceOf(a[..n], p, b);
      SameTotal(a[..n], Without(b, k));
      TotalSizeSnoc(a[..n], p);
      TotalWithout(b, k);
    }
  }

  lemma {:induction false} TotalWithout(b: seq<Packet>, k: nat)
    requires k < |b|
    ensures TotalSize(b) == TotalSize(Without(b, k)) + SizeOf(b[k])
  {
    if k == 0 {
      assert Without(b, 0) == b[1..];
    } else {
      TotalWithout(b[1..], k - 1);
      assert Without(b, k)[1..] == Without(b[1..], k - 1);
    }
  }
}
