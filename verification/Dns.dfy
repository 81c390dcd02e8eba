/** The host name encoder of net/dns.cc against the label format of section 3.1 of RFC 1035. Bytes are
    naturals below 256; a name is the bytes before its terminating zero. */
module Dns {
  import opened Options

  const DOT := 46
  const MAX_LABEL := 63

  /** The number of bytes from `i` to the next dot or the end. */
  function LabelLen(url: seq<nat>, i: nat): (n: nat)
    requires i <= |url|
    ensures i + n <= |url|
    ensures i + n < |url| ==> url[i + n] == DOT
    ensures forall j :: i <= j < i + n ==> url[j] != DOT
    decreases |url| - i
  {
    if i == |url| || url[i] == DOT then 0 else 1 + LabelLen(url, i + 1)
  }

  /** The labels of the name from `i` on: what lies between dots. */
  function Split(url: seq<nat>, i: nat): seq<seq<nat>>
    requires i <= |url|
    decreases |url| - i
  {
    var e := i + LabelLen(url, i);
    if e == |url| then [url[i..e]] else [url[i..e]] + Split(url, e + 1)
  }

  /** Reading length-prefixed labels from `p` up to the zero octet; None when the data are not of that form. */
  function Decode(data: seq<nat>, p: nat): Option<seq<seq<nat>>>
    decreases |data| - p
  {
    if p >= |data| then None
    else if data[p] == 0 then Some([])
    else if data[p] > MAX_LABEL || p + 1 + data[p] > |data| then None
    else match Decode(data, p + 1 + data[p])
      case None => None
      case Some(rest) => Some([data[p + 1..p + 1 + data[p]]] + rest)
  }

  /** A label starts at position `k` of the name. */
  predicate LabelStart(url: seq<nat>, k: nat)
    requires k <= |url|
  {
    k == 0 || url[k - 1] == DOT
  }

  /** What ends up at `buf[k]`. */
  function EncodedAt(url: seq<nat>, k: nat): nat
    requires k <= |url|
  {
    if LabelStart(url, k) then LabelLen(url, k) else url[k - 1]
  }

  ghost predicate IsEncoding(url: seq<nat>, enc: seq<nat>) {
    && |enc| == |url| + 2 && enc[|url| + 1] == 0
    && forall k :: 0 <= k <= |url| ==> enc[k] == EncodedAt(url, k)
  }

  function Encoded(url: seq<nat>): (e: seq<nat>)
    ensures IsEncoding(url, e)
  {
    seq(|url| + 1, k requires 0 <= k <= |url| => EncodedAt(url, k)) + [0]
  }

  ghost predicate ProperLabels(url: seq<nat>) {
    forall k :: 0 <= k <= |url| && LabelStart(url, k) ==> 1 <= LabelLen(url, k) <= MAX_LABEL
  }

  lemma LabelLenIs(url: seq<nat>, i: nat, e: nat)
    requires i <= e <= |url| && (e == |url| || url[e] == DOT)
    requires forall j :: i <= j < e ==> url[j] != DOT
    ensures LabelLen(url, i) == e - i
  {}

  lemma LabelBytes(url: seq<nat>, enc: seq<nat>, i: nat)
    requires IsEncoding(url, enc) && i <= |url| && LabelStart(url, i)
    ensures enc[i] == LabelLen(url, i)
    ensures enc[i + 1..i + 1 + LabelLen(url, i)] == url[i..i + LabelLen(url, i)]
  {
    var n := LabelLen(url, i);
    forall k | i + 1 <= k < i + 1 + n
      ensures enc[k] == url[k - 1]
    {
      assert !LabelStart(url, k);
    }
  }

  lemma DecodeStep(data: seq<nat>, p: nat, n: nat)
    requires p + 1 + n <= |data| && data[p] == n && 1 <= n <= MAX_LABEL
    ensures Decode(data, p) ==
      match Decode(data, p + 1 + n)
      case None => None
      case Some(rest) => Some([data[p + 1..p + 1 + n]] + rest)
  {}

  lemma SplitStep(url: seq<nat>, i: nat, e: nat)
    requires i <= e < |url| && e == i + LabelLen(url, i)
    ensures Split(url, i) == [url[i..e]] + Split(url, e + 1)
  {}

  lemma SplitLast(url: seq<nat>, i: nat)
    requires i <= |url| && i + LabelLen(url, i) == |url|
    ensures Split(url, i) == [url[i..|url|]]
  {}

  lemma {:induction false} DecodeFrom(url: seq<nat>, enc: seq<nat>, i: nat)
    requires IsEncoding(url, enc) && i <= |url| && LabelStart(url, i)
    requires ProperLabels(url)
    ensures Decode(enc, i) == Some(Split(url, i))
    decreases |url| - i
  {
    LabelBytes(url, enc, i);
    var n := LabelLen(url, i);
    var e := i + n;
    DecodeStep(enc, i, n);
    if e == |url| {
      assert Decode(enc, e + 1) == Some([]);
      SplitLast(url, i);
      assert [url[i..e]] + [] == [url[i..e]];
    } else {
      assert LabelStart(url, e + 1);
      DecodeFrom(url, enc, e + 1);
      SplitStep(url, i, e);
    }
  }

  lemma SplitSize(url: seq<nat>, i: nat)
    requires i <= |url|
    ensures |Split(url, i)| >= 1
  {}

  /** The next label start after `i` is just past the dot that ends the label at `i`. */
  lemma NextStart(url: seq<nat>, i: nat, k: nat)
    requires i < k <= |url| && LabelStart(url, k)
    ensures i + LabelLen(url, i) < k
  {}

  /** A label that is empty or too long makes the decoding stop early or fail. */
  lemma {:induction false} DecodeFails(url: seq<nat>, enc: seq<nat>, i: nat, bad: nat)
    requires IsEncoding(url, enc) && i <= bad <= |url| && LabelStart(url, i) && LabelStart(url, bad)
    requires !(1 <= LabelLen(url, bad) <= MAX_LABEL)
    ensures Decode(enc, i) != Some(Split(url, i))
    decreases |url| - i
  {
    LabelBytes(url, enc, i);
    SplitSize(url, i);
    var n := LabelLen(url, i);
    if 1 <= n <= MAX_LABEL {
      var e := i + n;
      NextStart(url, i, bad);
      assert LabelStart(url, e + 1);
      DecodeFails(url, enc, e + 1, bad);
      SplitStep(url, i, e);
      DecodeStep(enc, i, n);
      PrefixedDiffer(enc[i + 1..i + 1 + n], Decode(enc, e + 1), Split(url, e + 1));
    }
  }

  lemma PrefixedDiffer(first: seq<nat>, rest: Option<seq<seq<nat>>>, labels: seq<seq<nat>>)
    requires rest != Some(labels)
    ensures rest.Some? ==> [first] + rest.value != [first] + labels
  {
    assert ([first] + labels)[1..] == labels;
    assert rest.Some? ==> ([first] + rest.value)[1..] == rest.value;
  }

  /** Decoding the query gives back exactly the name split at dots if and only if every label has 1 to 63
      bytes. */
  lemma DecodeEncode(url: seq<nat>)
    ensures Decode(Encoded(url), 0) == Some(Split(url, 0)) <==> ProperLabels(url)
  {
    if ProperLabels(url) {
      DecodeFrom(url, Encoded(url), 0);
    } else {
      var bad :| 0 <= bad <= |url| && LabelStart(url, bad) && !(1 <= LabelLen(url, bad) <= MAX_LABEL);
      DecodeFails(url, Encoded(url), 0, bad);
    }
  }

  /** The one-pass encoder; `pos` and `cnt` are unsigned chars, hence the bound on the length. */
  method FormatUrl(buf: array<nat>, url: seq<nat>)
    requires 0 < |url| < 255 && buf.Length >= |url| + 2
    requires forall i :: 0 <= i < |url| ==> 0 < url[i] < 256
    modifies buf
    ensures buf[..|url| + 2] == Encoded(url)
    ensures buf[|url| + 2..] == old(buf[|url| + 2..])
  {
    var pos, cnt, i := 0, 0, 0;
    while i < |url|
      invariant 0 <= pos <= i <= |url| && cnt == i - pos
      invariant LabelStart(url, pos) && forall j :: pos <= j < i ==> url[j] != DOT
      invariant forall k :: 0 <= k < pos ==> buf[k] == EncodedAt(url, k)
      invariant forall k :: pos < k <= i ==> buf[k] == EncodedAt(url, k)
      invariant buf[|url| + 2..] == old(buf[|url| + 2..])
    {
      if url[i] != DOT {
        cnt := (cnt + 1) % 256;
        buf[i + 1] := url[i];
      } else {
        LabelLenIs(url, pos, i);
        buf[pos] := cnt;
        pos := (i + 1) % 256;
        cnt := 0;
      }
      i := i + 1;
    }
    LabelLenIs(url, pos, i);
    buf[i] := url[i - 1];
    buf[pos] := cnt;
    buf[i + 1] := 0;
    assert forall k :: 0 <= k <= |url| ==> buf[k] == EncodedAt(url, k);
    assert buf[..|url| + 2] == Encoded(url);
  }
}
