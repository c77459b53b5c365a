/**
 * db/encoding/set.go: a set of byte strings kept as one length-prefixed buffer
 * together with an index from each element to the offset of its record.
 */
module EncodedSet {
  import opened Prelude
  import Uint64

  // ---------------------------------------------------------------- the buffer

  function Record(e: Slice): (r: Bytes)
    ensures |r| == 8 + |e|
  {
    Uint64.ToBytes(|e|) + e
  }

  /** Eight little-endian bytes of length, then the element. */
  lemma RecordLayout(e: Slice)
    ensures |Record(e)| == 8 + |e| && Record(e)[8..] == e
    ensures forall i :: 0 <= i < 8 ==>
              Uint64.Power256(i) > 0 && Record(e)[i] == (|e| / Uint64.Power256(i)) % 256
  {
    forall i | 0 <= i < 8
      ensures Uint64.Power256(i) > 0 && Record(e)[i] == (|e| / Uint64.Power256(i)) % 256
    {
      Uint64.LittleEndian(|e|, i);
      assert Record(e)[i] == Uint64.ToBytes(|e|)[i];
    }
  }

  /** The buffer holding the given records back to back. */
  function Encode(rs: seq<Slice>): Bytes
  {
    if rs == [] then [] else Record(rs[0]) + Encode(rs[1..])
  }

  /** Where record `j` starts. */
  function Offset(rs: seq<Slice>, j: nat): nat
    requires j <= |rs|
  {
    |Encode(rs[..j])|
  }

  lemma {:induction false} EncodeConcat(a: seq<Slice>, b: seq<Slice>)
    ensures Encode(a + b) == Encode(a) + Encode(b)
    decreases |a|
  {
    if a == [] {
      assert a + b == b;
    } else {
      var r, x, y := Record(a[0]), Encode(a[1..]), Encode(b);
      EncodeConcat(a[1..], b);
      assert (a + b)[0] == a[0] && (a + b)[1..] == a[1..] + b;
      assert Encode(a + b) == r + (x + y);
      assert r + (x + y) == (r + x) + y;
    }
  }

  lemma EncodeOne(e: Slice)
    ensures Encode([e]) == Record(e)
  {
    assert [e][1..] == [];
  }

  /** The buffer splits at record `j`. */
  lemma SplitAt(rs: seq<Slice>, j: nat)
    requires j < |rs|
    ensures Encode(rs) == Encode(rs[..j]) + Record(rs[j]) + Encode(rs[j + 1..])
    ensures Offset(rs, j + 1) == Offset(rs, j) + 8 + |rs[j]|
  {
    assert rs[..j + 1] == rs[..j] + [rs[j]];
    EncodeConcat(rs[..j], [rs[j]]);
    EncodeOne(rs[j]);
    assert rs == rs[..j + 1] + rs[j + 1..];
    EncodeConcat(rs[..j + 1], rs[j + 1..]);
  }

  /** Records take at least eight bytes each, so offsets order records as indices do. */
  lemma {:induction false} OffsetsIncrease(rs: seq<Slice>, i: nat, j: nat)
    requires i <= j <= |rs|
    ensures Offset(rs, i) + 8 * (j - i) <= Offset(rs, j)
    decreases j - i
  {
    if i < j {
      OffsetsIncrease(rs, i, j - 1);
      SplitAt(rs, j - 1);
    }
  }

  // ---------------------------------------------------------------- parsing

  datatype Parse = Parsed(records: seq<Slice>) | UnexpectedEOF | Panic

  /** The outcome once the records `rs` have been read and the rest parses as `p`. */
  function After(rs: seq<Slice>, p: Parse): Parse
  {
    if p.Parsed? then Parsed(rs + p.records) else p
  }

  /**
   * What UnmarshalBinary makes of the bytes from position `i` on.  A length that does not
   * fit a non-negative int, alone or once added to the position, makes the slice
   * expression panic.
   */
  function ParseAt(data: Bytes, i: nat): (p: Parse)
    requires i <= |data|
    decreases |data| - i
  {
    if i == |data| then Parsed([])
    else if i + 8 > |data| then UnexpectedEOF
    else
      var u := Uint64.FromBytes(data[i..i + 8]);
      if u >= TWO63 then Panic
      else if i + 8 + u <= |data| then
        After([data[i + 8..i + 8 + u]], ParseAt(data, i + 8 + u))
      else if i + 8 + u >= TWO63 then Panic
      else UnexpectedEOF
  }

  function ParseSet(data: Bytes): Parse
  {
    ParseAt(data, 0)
  }

  /** What a record says about its length. */
  lemma Header(data: Bytes, i: nat, e: Slice)
    requires i + 8 <= |data| && data[i..i + 8] == Uint64.ToBytes(|e|)
    ensures Uint64.FromBytes(data[i..i + 8]) == |e|
  {
    Uint64.EncodeDecode(|e|, []);
    assert Uint64.ToBytes(|e|) + [] == Uint64.ToBytes(|e|);
  }

  /** One parsing step over a complete record. */
  lemma ParseRecord(pre: Bytes, e: Slice, rest: Bytes)
    ensures ParseAt(pre + Record(e) + rest, |pre|) ==
            After([e], ParseAt(pre + Record(e) + rest, |pre| + 8 + |e|))
  {
    var data := pre + Record(e) + rest;
    var i := |pre|;
    assert data[i..i + 8] == Uint64.ToBytes(|e|);
    Header(data, i, e);
    assert data[i + 8..i + 8 + |e|] == e;
  }

  lemma {:induction false} ParseEncodeAt(pre: Bytes, rs: seq<Slice>)
    ensures ParseAt(pre + Encode(rs), |pre|) == Parsed(rs)
    decreases |rs|
  {
    if rs == [] {
      assert pre + Encode(rs) == pre;
    } else {
      var r, rest := Record(rs[0]), Encode(rs[1..]);
      ParseEncodeAt(pre + r, rs[1..]);
      assert pre + (r + rest) == (pre + r) + rest;
      ParseRecord(pre, rs[0], rest);
      assert rs == [rs[0]] + rs[1..];
    }
  }

  /** Reading back a buffer gives the records that were written. */
  lemma ParseEncode(rs: seq<Slice>)
    ensures ParseSet(Encode(rs)) == Parsed(rs)
  {
    assert [] + Encode(rs) == Encode(rs);
    ParseEncodeAt([], rs);
  }

  lemma {:induction false} EncodeParseAt(data: Bytes, i: nat)
    requires i <= |data|
    requires ParseAt(data, i).Parsed?
    ensures data[i..] == Encode(ParseAt(data, i).records)
    decreases |data| - i
  {
    if i < |data| {
      var u := Uint64.FromBytes(data[i..i + 8]);
      var e: Slice := data[i + 8..i + 8 + u];
      EncodeParseAt(data, i + 8 + u);
      Uint64.DecodeEncode(data[i..i + 8]);
      assert Record(e) == data[i..i + 8] + e;
      ThreeParts(data, i, i + 8, i + 8 + u);
      EncodeCons(e, ParseAt(data, i + 8 + u).records);
      assert ParseAt(data, i).records == [e] + ParseAt(data, i + 8 + u).records;
    }
  }

  lemma ThreeParts(data: Bytes, i: nat, j: nat, k: nat)
    requires i <= j <= k <= |data|
    ensures data[i..] == data[i..j] + data[j..k] + data[k..]
  {
  }

  lemma EncodeCons(e: Slice, rs: seq<Slice>)
    ensures Encode([e] + rs) == Record(e) + Encode(rs)
  {
    assert ([e] + rs)[1..] == rs;
  }

  /** A buffer is accepted only if it is exactly the encoding of the records read from it. */
  lemma EncodeParse(data: Bytes)
    requires ParseSet(data).Parsed?
    ensures Encode(ParseSet(data).records) == data
  {
    EncodeParseAt(data, 0);
    assert data[0..] == data;
  }

  lemma {:induction false} TruncatedAt(pre: Bytes, rs: seq<Slice>, c: nat)
    requires c <= |Encode(rs)| && |pre| + |Encode(rs)| < TWO63
    requires forall j :: 0 <= j <= |rs| ==> c != Offset(rs, j)
    ensures ParseAt(pre + Encode(rs)[..c], |pre|) == UnexpectedEOF
    decreases |rs|
  {
    assert c != Offset(rs, 0);
    assert c != Offset(rs, |rs|) && rs[..|rs|] == rs;
    var e, rest := rs[0], Encode(rs[1..]);
    var n := 8 + |e|;
    if c >= n {
      forall j | 0 <= j <= |rs[1..]| ensures c - n != Offset(rs[1..], j) {
        OffsetCons(rs, j);
      }
      TruncatedAt(pre + Record(e), rs[1..], c - n);
      CutBehind(pre, Record(e), rest, c);
      ParseRecord(pre, e, rest[..c - n]);
    } else {
      assert (Record(e) + rest)[..c] == Record(e)[..c];
      CutInsideRecord(pre, e, c);
    }
  }

  lemma CutBehind(pre: Bytes, r: Bytes, rest: Bytes, c: nat)
    requires |r| <= c <= |r| + |rest|
    ensures pre + (r + rest)[..c] == pre + r + rest[..c - |r|]
  {
    assert (r + rest)[..c] == r + rest[..c - |r|];
  }

  lemma OffsetCons(rs: seq<Slice>, j: nat)
    requires j < |rs|
    ensures Offset(rs, j + 1) == 8 + |rs[0]| + Offset(rs[1..], j)
  {
    assert rs[..j + 1][1..] == rs[1..][..j];
  }

  lemma CutInsideRecord(pre: Bytes, e: Slice, c: nat)
    requires 0 < c < 8 + |e| && |pre| + 8 + |e| < TWO63
    ensures ParseAt(pre + Record(e)[..c], |pre|) == UnexpectedEOF
  {
    var data := pre + Record(e)[..c];
    assert |data| == |pre| + c;
    if c >= 8 {
      CutBehindHeader(pre, e, c);
      Header(data, |pre|, e);
    }
    ShortRecord(data, |pre|, |e|);
  }

  /** A record that is announced longer than what is left. */
  lemma ShortRecord(data: Bytes, i: nat, n: nat)
    requires i < |data| < i + 8 + n < TWO63
    requires i + 8 <= |data| ==> Uint64.FromBytes(data[i..i + 8]) == n
    ensures ParseAt(data, i) == UnexpectedEOF
  {
  }

  lemma CutBehindHeader(pre: Bytes, e: Slice, c: nat)
    requires 8 <= c <= 8 + |e|
    ensures (pre + Record(e)[..c])[|pre|..|pre| + 8] == Uint64.ToBytes(|e|)
  {
    var part := Record(e)[..c];
    assert part[..8] == Uint64.ToBytes(|e|);
    assert (pre + part)[|pre|..|pre| + 8] == part[..8];
  }

  /**
   * Cutting an encoded set short: the parser accepts the prefix if and only if the cut
   * falls between two records, and otherwise reports an unexpected end of input.
   */
  lemma TruncationDetected(rs: seq<Slice>, c: nat)
    requires c <= |Encode(rs)| < TWO63
    ensures ParseSet(Encode(rs)[..c]).Parsed? <==> exists j :: 0 <= j <= |rs| && c == Offset(rs, j)
    ensures ParseSet(Encode(rs)[..c]) != Panic
  {
    if j :| 0 <= j <= |rs| && c == Offset(rs, j) {
      EncodeConcat(rs[..j], rs[j..]);
      assert rs == rs[..j] + rs[j..];
      assert Encode(rs)[..c] == Encode(rs[..j]);
      ParseEncode(rs[..j]);
    } else {
      TruncatedAt([], rs, c);
      assert [] + Encode(rs)[..c] == Encode(rs)[..c];
    }
  }

  // ---------------------------------------------------------------- the abstract set

  /** The records in the buffer and the elements present in the index. */
  datatype Rep = Rep(records: seq<Slice>, live: set<Slice>)

  function Members(rs: seq<Slice>): set<Slice>
  {
    set e | e in rs
  }

  /** The set a freshly parsed buffer stands for. */
  function Loaded(rs: seq<Slice>): Rep
  {
    Rep(rs, Members(rs))
  }

  /** What a set built only by Add and Remove from the empty set looks like. */
  ghost predicate WellFormed(r: Rep)
  {
    Distinct(r.records) && r.live == Members(r.records) && [] !in r.records
  }

  ghost predicate LastAt(rs: seq<Slice>, e: Slice, j: nat)
  {
    j < |rs| && rs[j] == e && forall i :: j < i < |rs| ==> rs[i] != e
  }

  /** The last position of `e`. */
  function LastIndex(rs: seq<Slice>, e: Slice): (j: nat)
    requires e in rs
    ensures LastAt(rs, e, j)
  {
    var n := |rs| - 1;
    if rs[n] == e then n else LastIndex(rs[..n], e)
  }

  /** The offset of the last record of `e`. */
  ghost function Place(rs: seq<Slice>, e: Slice): nat
    requires e in rs
  {
    Offset(rs, LastIndex(rs, e))
  }

  /** The index that goes with a representation: every live element points at its last record. */
  ghost predicate Indexes(m: map<Slice, int>, r: Rep)
  {
    && m.Keys == r.live
    && forall e :: e in r.live ==> e in r.records && m[e] == Place(r.records, e)
  }

  function Without(rs: seq<Slice>, j: nat): seq<Slice>
    requires j < |rs|
  {
    rs[..j] + rs[j + 1..]
  }

  /** Effect of Add on a non-empty element. */
  function Insert(r: Rep, e: Slice): Rep
  {
    if e in r.live then r else Rep(r.records + [e], r.live + {e})
  }

  /** Effect of Remove on a non-empty element. */
  function Delete(r: Rep, e: Slice): Rep
  {
    if e in r.live && e in r.records
    then Rep(Without(r.records, LastIndex(r.records, e)), r.live - {e})
    else r
  }

  // ---------------------------------------------------------------- index maintenance

  lemma LastIndexIs(rs: seq<Slice>, x: Slice, m: nat)
    requires LastAt(rs, x, m)
    ensures LastIndex(rs, x) == m
  {
    assert LastAt(rs, x, LastIndex(rs, x));
  }

  /** Appending a record leaves the place of every other element alone. */
  lemma PlaceAfterAppend(rs: seq<Slice>, e: Slice, x: Slice)
    requires x in rs || x == e
    ensures Place(rs + [e], x) == if x == e then |Encode(rs)| else Place(rs, x)
  {
    var rs' := rs + [e];
    if x == e {
      LastIndexIs(rs', x, |rs|);
      assert rs'[..|rs|] == rs;
    } else {
      var j := LastIndex(rs, x);
      assert LastAt(rs', x, j);
      LastIndexIs(rs', x, j);
      assert rs'[..j] == rs[..j];
    }
  }

  lemma AppendBuffer(rs: seq<Slice>, e: Slice)
    ensures Encode(rs + [e]) == Encode(rs) + Record(e)
  {
    EncodeConcat(rs, [e]);
    EncodeOne(e);
  }

  /** Removing record `j` shifts the records behind it and no other. */
  lemma PlaceAfterCut(rs: seq<Slice>, j: nat, x: Slice)
    requires j < |rs| && x in rs && x != rs[j]
    ensures x in Without(rs, j)
    ensures Place(Without(rs, j), x) ==
            if Place(rs, x) > Offset(rs, j) then Place(rs, x) - 8 - |rs[j]| else Place(rs, x)
  {
    var i := LastIndex(rs, x);
    var rs' := Without(rs, j);
    if i < j {
      CutKeepsLast(rs, j, x, i);
      assert rs'[..i] == rs[..i];
      OffsetsIncrease(rs, i, j);
    } else {
      CutKeepsLast(rs, j, x, i);
      CutOffset(rs, j, i);
      OffsetsIncrease(rs, j, i);
    }
  }

  lemma CutKeepsLast(rs: seq<Slice>, j: nat, x: Slice, i: nat)
    requires j < |rs| && x != rs[j] && LastAt(rs, x, i)
    ensures x in Without(rs, j)
    ensures LastIndex(Without(rs, j), x) == if i < j then i else i - 1
  {
    var rs' := Without(rs, j);
    var m := if i < j then i else i - 1;
    assert rs'[m] == x;
    forall t | m < t < |rs'| ensures rs'[t] != x {
      assert rs'[t] == rs[if t < j then t else t + 1];
    }
    LastIndexIs(rs', x, m);
  }

  lemma CutOffset(rs: seq<Slice>, j: nat, i: nat)
    requires j < i < |rs|
    ensures Offset(Without(rs, j), i - 1) == Offset(rs, i) - 8 - |rs[j]|
  {
    assert Without(rs, j)[..i - 1] == rs[..j] + rs[j + 1..i];
    EncodeConcat(rs[..j], rs[j + 1..i]);
    assert rs[..i] == rs[..j + 1] + rs[j + 1..i];
    EncodeConcat(rs[..j + 1], rs[j + 1..i]);
    SplitAt(rs, j);
  }

  /** Cutting the record out of the buffer is removing it from the list of records. */
  lemma CutBuffer(rs: seq<Slice>, j: nat)
    requires j < |rs|
    ensures var p := Offset(rs, j);
            && p + 8 + |rs[j]| <= |Encode(rs)|
            && Encode(Without(rs, j)) == Encode(rs)[..p] + Encode(rs)[p + 8 + |rs[j]|..]
  {
    SplitAt(rs, j);
    EncodeConcat(rs[..j], rs[j + 1..]);
    var a, b, c := Encode(rs[..j]), Record(rs[j]), Encode(rs[j + 1..]);
    assert (a + b + c)[..|a|] == a;
    assert (a + b + c)[|a| + |b|..] == c;
  }

  /** Recording a new last place for `e`, known or not. */
  lemma IndexAfterAppend(m: map<Slice, int>, rs: seq<Slice>, e: Slice)
    requires Indexes(m, Rep(rs, m.Keys))
    ensures Indexes(m[e := |Encode(rs)|], Rep(rs + [e], m.Keys + {e}))
  {
    var m' := m[e := |Encode(rs)|];
    forall x | x in m.Keys + {e}
      ensures x in rs + [e]
      ensures m'[x] == Place(rs + [e], x)
    {
      assert x != e ==> x in rs && m[x] == Place(rs, x);
      PlaceAfterAppend(rs, e, x);
    }
  }

  lemma MembersSnoc(rs: seq<Slice>, e: Slice)
    ensures Members(rs + [e]) == Members(rs) + {e}
  {
  }

  lemma IndexAfterCut(m: map<Slice, int>, m': map<Slice, int>, rs: seq<Slice>, e: Slice)
    requires Indexes(m, Rep(rs, m.Keys)) && e in m
    requires m'.Keys == m.Keys - {e}
    requires forall x :: x in m' ==> m'[x] == if m[x] > m[e] then m[x] - 8 - |e| else m[x]
    ensures Indexes(m', Rep(Without(rs, LastIndex(rs, e)), m.Keys - {e}))
  {
    var j := LastIndex(rs, e);
    forall x | x in m'
      ensures x in Without(rs, j)
      ensures m'[x] == Place(Without(rs, j), x)
    {
      PlaceAfterCut(rs, j, x);
    }
  }

  // ---------------------------------------------------------------- the set object

  datatype Error = NoError | EmptyElement

  /** `int(u)` on a 64-bit machine. */
  function ToInt(u: int): int
  {
    var w := u % TWO64;
    if w >= TWO63 then w - TWO64 else w
  }

  /** The end of a record, computed in wrapping int arithmetic. */
  function EndOf(i: nat, u: nat): int
  {
    ToInt(i + 8 + ToInt(u))
  }

  /** The end is exact when it fits an int, and otherwise lies before the record. */
  lemma EndWraps(i: nat, u: nat)
    requires i + 8 < TWO63 && u < TWO64
    ensures i + 8 + u < TWO63 ==> EndOf(i, u) == i + 8 + u
    ensures i + 8 + u >= TWO63 ==> EndOf(i, u) < i + 8
  {
    if u >= TWO63 {
      assert ToInt(u) == u - TWO64;
      assert (i + 8 + u - TWO64) % TWO64 == if i + 8 + u < TWO64 then i + 8 + u else i + 8 + u - TWO64;
    }
  }

  /** The loop body of UnmarshalBinary, wrap-around included, decides what ParseAt decides. */
  lemma ParseStep(data: Slice, i: nat)
    requires i + 8 <= |data|
    ensures var end := EndOf(i, Uint64.FromBytes(data[i..i + 8]));
            && (end > |data| ==> ParseAt(data, i) == UnexpectedEOF)
            && (end < i + 8 ==> ParseAt(data, i) == Panic)
            && (i + 8 <= end <= |data| ==>
                  && data[i..end] == Record(data[i + 8..end])
                  && ParseAt(data, i) == After([data[i + 8..end]], ParseAt(data, end)))
  {
    var head := data[i..i + 8];
    Uint64.DecodeEncode(head);
    var u := Uint64.FromBytes(head);
    EndWraps(i, u);
    if i + 8 + u <= |data| {
      var e: Slice := data[i + 8..i + 8 + u];
      assert data[i..i + 8 + u] == head + e;
    }
  }

  lemma AfterAfter(rs: seq<Slice>, e: Slice, p: Parse)
    ensures After(rs, After([e], p)) == After(rs + [e], p)
  {
    if p.Parsed? {
      assert rs + ([e] + p.records) == rs + [e] + p.records;
    }
  }

  /** What one turn of the loop of UnmarshalBinary keeps. */
  lemma ParseAdvances(data: Slice, i: nat, end: int, done: seq<Slice>, m: map<Slice, int>)
    requires i + 8 <= end <= |data| && end == EndOf(i, Uint64.FromBytes(data[i..i + 8]))
    requires data[..i] == Encode(done) && Indexes(m, Loaded(done))
    requires ParseSet(data) == After(done, ParseAt(data, i))
    ensures var str: Slice := data[i + 8..end];
            && data[..end] == Encode(done + [str]) && Indexes(m[str := i], Loaded(done + [str]))
            && ParseSet(data) == After(done + [str], ParseAt(data, end))
  {
    var str: Slice := data[i + 8..end];
    ParseStep(data, i);
    assert data[..end] == data[..i] + data[i..end];
    AfterAfter(done, str, ParseAt(data, end));
    AppendBuffer(done, str);
    IndexAfterAppend(m, done, str);
    MembersSnoc(done, str);
  }

  class Set {
    var Elements: map<Slice, int>
    var raw: Slice

    ghost function Contents(): Rep
      reads this
      requires ParseSet(raw).Parsed?
    {
      Rep(ParseSet(raw).records, Elements.Keys)
    }

    /** The buffer is a list of records and every indexed element points at its last record. */
    ghost predicate Valid()
      reads this
    {
      && ParseSet(raw).Parsed?
      && Indexes(Elements, Contents())
    }

    constructor ()
      ensures Valid() && Contents() == Rep([], {})
    {
      Elements, raw := map[], [];
    }

    method Contains(element: Slice) returns (found: bool)
      requires Valid()
      ensures found <==> element != [] && element in Contents().live
    {
      if |element| == 0 {
        return false;
      }
      found := element in Elements;
    }

    /** The last precondition is the longest slice Go can make. */
    method Add(element: Slice) returns (inserted: bool, err: Error)
      requires Valid()
      requires |raw| + 8 + |element| < TWO63
      modifies this
      ensures Valid()
      ensures err.EmptyElement? <==> element == []
      ensures Contents() == if element == [] then old(Contents()) else Insert(old(Contents()), element)
      ensures inserted <==> element != [] && element !in old(Contents().live)
    {
      inserted, err := false, NoError;
      if |element| == 0 {
        err := EmptyElement;
        return;
      }
      if element in Elements {
        return;
      }
      ghost var rs, was := Contents().records, Elements;
      EncodeParse(raw);
      AppendBuffer(rs, element);
      Elements := Elements[element := |raw|];
      raw := raw + (Uint64.ToBytes(|element|) + element);
      inserted := true;
      assert raw == Encode(rs + [element]);
      ParseEncode(rs + [element]);
      IndexAfterAppend(was, rs, element);
      assert Elements.Keys == was.Keys + {element};
    }

    method Remove(element: Slice) returns (removed: bool, err: Error)
      requires Valid()
      modifies this
      ensures Valid()
      ensures err.EmptyElement? <==> element == []
      ensures Contents() == if element == [] then old(Contents()) else Delete(old(Contents()), element)
      ensures removed <==> element != [] && element in old(Contents().live)
    {
      removed, err := false, NoError;
      var l := |element|;
      if l == 0 {
        err := EmptyElement;
        return;
      }
      l := l + 8;
      if element !in Elements {
        return;
      }
      var p := Elements[element];
      ghost var rs, was := Contents().records, Elements;
      ghost var j := LastIndex(rs, element);
      EncodeParse(raw);
      CutBuffer(rs, j);
      Elements := Elements - {element};
      raw := raw[..p] + raw[l + p..];
      ParseEncode(Without(rs, j));
      Rebase(p, l);
      removed := true;
      IndexAfterCut(was, Elements, rs, element);
    }

    /** The loop that moves the offsets behind the removed record. */
    method Rebase(p: int, l: int)
      modifies this`Elements
      ensures Elements.Keys == old(Elements).Keys
      ensures forall e :: e in Elements ==>
                Elements[e] == if old(Elements)[e] > p then old(Elements)[e] - l else old(Elements)[e]
    {
      var todo := Elements.Keys;
      while todo != {}
        invariant todo <= Elements.Keys == old(Elements).Keys
        invariant forall e :: e in todo ==> Elements[e] == old(Elements)[e]
        invariant forall e :: e in Elements && e !in todo ==>
                    Elements[e] == if old(Elements)[e] > p then old(Elements)[e] - l else old(Elements)[e]
      {
        var e :| e in todo;
        todo := todo - {e};
        if Elements[e] > p {
          Elements := Elements[e := Elements[e] - l];
        }
      }
    }

    method MarshalBinary() returns (data: Slice)
      requires Valid()
      ensures data == Encode(Contents().records)
    {
      EncodeParse(raw);
      data := raw;
    }

    /** Parses `data`; the object is usable afterwards exactly when the result is `Parsed`. */
    method UnmarshalBinary(data: Slice) returns (ghost outcome: Parse, ok: bool, panicked: bool)
      modifies this
      ensures raw == data
      ensures outcome == ParseSet(data)
      ensures ok <==> outcome.Parsed?
      ensures panicked <==> outcome.Panic?
      ensures outcome.Parsed? ==> Valid() && Contents() == Loaded(outcome.records)
    {
      Elements, raw := map[], data;
      outcome, ok, panicked := ParseSet(data), false, false;
      ghost var done: seq<Slice> := [];
      var l, i := |data|, 0;
      while i < l
        invariant 0 <= i <= l
        invariant raw == data
        invariant data[..i] == Encode(done)
        invariant Indexes(Elements, Loaded(done))
        invariant ParseSet(data) == After(done, ParseAt(data, i))
      {
        if i + 8 > l {
          return;
        }
        var end := EndOf(i, Uint64.FromBytes(data[i..i + 8]));
        ParseStep(data, i);
        if end > l {
          return;
        }
        if end < i + 8 {
          panicked := true;
          return;
        }
        var str: Slice := data[i + 8..end];
        ParseAdvances(data, i, end, done, Elements);
        Elements := Elements[str := i];
        done := done + [str];
        i := end;
      }
      ok := true;
      assert ParseAt(data, i) == Parsed([]);
      assert done + [] == done;
    }
  }

  // ---------------------------------------------------------------- every run of Add and Remove

  datatype Update = Adding(e: Slice) | Removing(e: Slice)

  function Updated(r: Rep, u: Update): Rep
  {
    if u.e == [] then r
    else if u.Adding? then Insert(r, u.e) else Delete(r, u.e)
  }

  /** The representation after a sequence of calls on an empty set. */
  function RunUpdates(us: seq<Update>): Rep
  {
    if us == [] then Rep([], {}) else Updated(RunUpdates(us[..|us| - 1]), us[|us| - 1])
  }

  /** The mathematical set the same calls describe. */
  function MathSet(us: seq<Update>): set<Slice>
  {
    if us == [] then {} else
      var s, u := MathSet(us[..|us| - 1]), us[|us| - 1];
      if u.e == [] then s else if u.Adding? then s + {u.e} else s - {u.e}
  }

  lemma DeleteWellFormed(r: Rep, e: Slice)
    requires WellFormed(r) && e in r.live
    ensures WellFormed(Delete(r, e)) && Delete(r, e).live == r.live - {e}
  {
    var j := LastIndex(r.records, e);
    var rs, rs' := r.records, Without(r.records, j);
    assert forall t :: 0 <= t < |rs'| ==> rs'[t] == rs[if t < j then t else t + 1];
    forall x ensures x in rs' <==> x in rs && x != e {
      if x in rs && x != e {
        var t :| 0 <= t < |rs| && rs[t] == x;
        assert rs'[if t < j then t else t - 1] == x;
      }
    }
    assert Members(rs') == Members(rs) - {e};
  }

  /**
   * For every sequence of Add and Remove calls from an empty set, the buffer holds distinct
   * non-empty records, the index covers exactly them, and both agree with the mathematical set.
   */
  lemma {:induction false} EveryRunIsWellFormed(us: seq<Update>)
    ensures WellFormed(RunUpdates(us))
    ensures RunUpdates(us).live == MathSet(us)
  {
    if us != [] {
      var r, u := RunUpdates(us[..|us| - 1]), us[|us| - 1];
      EveryRunIsWellFormed(us[..|us| - 1]);
      if u.e != [] && u.Adding? && u.e !in r.live {
        assert u.e !in r.records;
        MembersSnoc(r.records, u.e);
      } else if u.e != [] && u.Removing? && u.e in r.live {
        DeleteWellFormed(r, u.e);
      }
    }
  }

  /** Every slice the calls make is one that Go can make. */
  ghost predicate Fits(us: seq<Update>)
  {
    forall i :: 0 <= i < |us| ==> |Encode(RunUpdates(us[..i]).records)| + 8 + |us[i].e| < TWO63
  }

  /** Every offset is that of the element's own record in the buffer. */
  ghost predicate PointsAtRecords(index: map<Slice, int>, raw: Bytes)
  {
    forall e :: e in index ==>
      && 0 <= index[e] && index[e] + 8 + |e| <= |raw|
      && raw[index[e]..index[e] + 8 + |e|] == Record(e)
  }

  lemma IndexPoints(index: map<Slice, int>, r: Rep)
    requires Indexes(index, r)
    ensures PointsAtRecords(index, Encode(r.records))
  {
    forall e | e in index
      ensures 0 <= index[e] && index[e] + 8 + |e| <= |Encode(r.records)|
      ensures Encode(r.records)[index[e]..index[e] + 8 + |e|] == Record(e)
    {
      var j := LastIndex(r.records, e);
      SplitAt(r.records, j);
    }
  }

  /** Marshalling and parsing again rebuilds the very same element-to-offset map. */
  lemma ReloadRebuildsIndex(us: seq<Update>, m: map<Slice, int>, rs: seq<Slice>, m': map<Slice, int>)
    requires Indexes(m, RunUpdates(us))
    requires ParseSet(Encode(RunUpdates(us).records)) == Parsed(rs) && Indexes(m', Loaded(rs))
    ensures rs == RunUpdates(us).records && m' == m
  {
    EveryRunIsWellFormed(us);
    ParseEncode(RunUpdates(us).records);
  }

  /** An added element goes to the end of the buffer; an element already there leaves it alone. */
  lemma AddAppends(r: Rep, e: Slice)
    requires WellFormed(r) && e != []
    ensures Encode(Updated(r, Adding(e)).records) ==
            if e in r.live then Encode(r.records) else Encode(r.records) + Record(e)
  {
    AppendBuffer(r.records, e);
  }

  method UpdateOne(s: Set, u: Update)
    requires s.Valid() && |Encode(s.Contents().records)| + 8 + |u.e| < TWO63
    modifies s
    ensures s.Valid() && s.Contents() == Updated(old(s.Contents()), u)
  {
    EncodeParse(s.raw);
    if u.Adding? {
      var _, _ := s.Add(u.e);
    } else {
      var _, _ := s.Remove(u.e);
    }
  }

  method UpdateAll(us: seq<Update>) returns (s: Set)
    requires Fits(us)
    ensures fresh(s) && s.Valid() && s.Contents() == RunUpdates(us)
  {
    s := new Set();
    for i := 0 to |us|
      invariant fresh(s) && s.Valid() && s.Contents() == RunUpdates(us[..i])
    {
      assert us[..i + 1][..i] == us[..i];
      UpdateOne(s, us[i]);
    }
    assert us[..|us|] == us;
  }

  method AskAll(s: Set, asked: seq<Slice>) returns (answers: seq<bool>)
    requires s.Valid()
    ensures |answers| == |asked|
    ensures forall i :: 0 <= i < |asked| ==> (answers[i] <==> asked[i] != [] && asked[i] in s.Contents().live)
  {
    answers := [];
    for i := 0 to |asked|
      invariant |answers| == i
      invariant forall j :: 0 <= j < i ==> (answers[j] <==> asked[j] != [] && asked[j] in s.Contents().live)
    {
      var found := s.Contains(asked[i]);
      answers := answers + [found];
    }
  }

  /**
   * The object itself, driven by any sequence of Add and Remove calls and then asked about any
   * elements: the buffer holds the distinct non-empty elements back to back, every offset points
   * at its own record, Contains agrees with the mathematical set, and a second object that parses
   * the buffer builds the same offsets.
   */
  method Drive(us: seq<Update>, asked: seq<Slice>)
    returns (raw: Bytes, index: map<Slice, int>, answers: seq<bool>, reloaded: map<Slice, int>)
    requires Fits(us)
    ensures raw == Encode(RunUpdates(us).records) && WellFormed(RunUpdates(us))
    ensures index.Keys == MathSet(us) && PointsAtRecords(index, raw)
    ensures |answers| == |asked| && forall i :: 0 <= i < |asked| ==> (answers[i] <==> asked[i] in MathSet(us))
    ensures reloaded == index
  {
    EveryRunIsWellFormed(us);
    var s := UpdateAll(us);
    answers := AskAll(s, asked);
    var data := s.MarshalBinary();
    raw, index := data, s.Elements;
    IndexPoints(index, RunUpdates(us));
    reloaded := Reload(data, us, index);
  }

  method Reload(data: Slice, ghost us: seq<Update>, ghost index: map<Slice, int>) returns (reloaded: map<Slice, int>)
    requires data == Encode(RunUpdates(us).records) && Indexes(index, RunUpdates(us))
    ensures reloaded == index
  {
    ParseEncode(RunUpdates(us).records);
    var s := new Set();
    var _, _, _ := s.UnmarshalBinary(data);
    reloaded := s.Elements;
    ReloadRebuildsIndex(us, index, s.Contents().records, reloaded);
  }

  /**
   * The index is not rebuilt for a buffer that holds an element twice: removing it leaves a
   * record behind that the index no longer knows and that parsing finds again.
   */
  lemma DuplicateRecordsComeBack(e: Slice)
    requires e != []
    ensures var r := Delete(Loaded([e, e]), e);
            r.live == {} && Loaded(r.records).live == {e}
  {
    var rs: seq<Slice> := [e, e];
    assert e in Loaded(rs).live;
    LastIndexIs(rs, e, 1);
    assert Without(rs, 1) == [e];
    assert Members(rs) == {e};
    assert Members([e]) == {e};
  }
}
