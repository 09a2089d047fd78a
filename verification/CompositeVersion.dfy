/**
  Composite resource versions: an epoch and a sequence per bucket in one
  string, as in `e7|b2:1044,b5:902`.
*/
module CompositeVersion {
  import opened Objects
  import opened Numbers

  datatype Parsed = Parsed(epoch: int, hwm: int) | Malformed

  /** The position of the first `c`, or the length when there is none. */
  function IndexOf(s: string, c: char): (n: nat)
    ensures n <= |s| && c !in s[..n]
    ensures n < |s| ==> s[n] == c
  {
    if s == "" || s[0] == c then 0
    else
      var n := IndexOf(s[1..], c);
      assert s[..n + 1] == [s[0]] + s[1..][..n];
      n + 1
  }

  function Split(s: string, sep: char): seq<string>
    decreases |s|
  {
    var n := IndexOf(s, sep);
    if n == |s| then [s] else [s[..n]] + Split(s[n + 1..], sep)
  }

  function TrimPrefix(s: string, prefix: string): string {
    if prefix <= s then s[|prefix|..] else s
  }

  function BucketPrefix(bucket: int): string { "b" + FormatInt(bucket) + ":" }

  /** The number after the prefix in the first part that has it; 0 when none has. */
  function FindPart(parts: seq<string>, prefix: string): Option<int> {
    if parts == [] then Some(0)
    else if prefix <= parts[0] then ParseInt(parts[0][|prefix|..])
    else FindPart(parts[1..], prefix)
  }

  function Parse(rv: string, bucket: int): Parsed {
    var bar := IndexOf(rv, '|');
    if bar == |rv| then Malformed
    else
      var epoch := ParseInt(TrimPrefix(rv[..bar], "e"));
      var hwm := FindPart(Split(rv[bar + 1..], ','), BucketPrefix(bucket));
      if epoch.None? || hwm.None? then Malformed else Parsed(epoch.value, hwm.value)
  }

  /** The loop over the parts: the first with the prefix decides. */
  method ScanParts(parts: seq<string>, prefix: string) returns (hwm: Option<int>)
    ensures hwm == FindPart(parts, prefix)
    ensures (forall n :: 0 <= n < |parts| ==> !(prefix <= parts[n])) ==> hwm == Some(0)
    ensures forall n :: 0 <= n < |parts| && prefix <= parts[n] && (forall m :: 0 <= m < n ==> !(prefix <= parts[m])) ==>
      hwm == ParseInt(parts[n][|prefix|..])
  {
    for n := 0 to |parts|
      invariant FindPart(parts, prefix) == FindPart(parts[n..], prefix)
      invariant forall m :: 0 <= m < n ==> !(prefix <= parts[m])
    {
      assert parts[n..][0] == parts[n] && parts[n..][1..] == parts[n + 1..];
      if prefix <= parts[n] {
        return ParseInt(parts[n][|prefix|..]);
      }
    }
    return Some(0);
  }

  method ParseBucketHWM(rv: string, bucket: int) returns (r: Parsed)
    ensures r == Parse(rv, bucket)
    ensures '|' !in rv ==> r == Malformed
  {
    var bar := IndexOf(rv, '|');
    if bar == |rv| {
      return Malformed;
    }
    var epoch := ParseInt(TrimPrefix(rv[..bar], "e"));
    if epoch.None? {
      return Malformed;
    }
    var hwm := ScanParts(Split(rv[bar + 1..], ','), BucketPrefix(bucket));
    return if hwm.Some? then Parsed(epoch.value, hwm.value) else Malformed;
  }

  // ---- printing ----

  datatype Mark = Mark(bucket: int, seqNo: int)

  function PrintMark(m: Mark): string { BucketPrefix(m.bucket) + FormatInt(m.seqNo) }

  function PrintMarks(marks: seq<Mark>): string {
    if marks == [] then ""
    else if |marks| == 1 then PrintMark(marks[0])
    else PrintMark(marks[0]) + "," + PrintMarks(marks[1..])
  }

  function Print(epoch: int, marks: seq<Mark>): string {
    "e" + FormatInt(epoch) + "|" + PrintMarks(marks)
  }

  /** What the marks say about a bucket: its sequence, or 0. */
  function SeqOf(marks: seq<Mark>, bucket: int): int {
    if marks == [] then 0
    else if marks[0].bucket == bucket then marks[0].seqNo
    else SeqOf(marks[1..], bucket)
  }

  // ---- round trip ----

  lemma {:induction false} IndexOfFirst(a: string, c: char, b: string)
    requires c !in a
    ensures IndexOf(a + [c] + b, c) == |a|
  {
    if a != "" {
      assert (a + [c] + b)[1..] == a[1..] + [c] + b;
      IndexOfFirst(a[1..], c, b);
    }
  }

  /** Numbers are made of digits and at most a sign. */
  lemma FormatIntChars(n: int, c: char)
    requires !IsDigit(c) && c != '-'
    ensures c !in FormatInt(n)
  {
  }

  lemma FormatIntSign(n: int)
    ensures FormatInt(n) != "" && (FormatInt(n)[0] == '-' <==> n < 0)
  {
    if n >= 0 {
      assert IsDigit(FormatNat(n)[0]);
    }
  }

  lemma FormatIntInjective(a: int, b: int)
    requires FormatInt(a) == FormatInt(b)
    ensures a == b
  {
    FormatIntSign(a);
    FormatIntSign(b);
    if a < 0 {
      assert FormatInt(a)[1..] == FormatNat(-a) && FormatInt(b)[1..] == FormatNat(-b);
      FormatNatInjective(-a, -b);
    } else {
      FormatNatInjective(a, b);
    }
  }

  /** Strings equal up to a separator neither contains are equal before it. */
  lemma SameUpTo(x: string, y: string, c: char, a: string, b: string)
    requires c !in x && c !in y && x + [c] + a == y + [c] + b
    ensures x == y
  {
    IndexOfFirst(x, c, a);
    IndexOfFirst(y, c, b);
    assert x == (x + [c] + a)[..|x|] && y == (y + [c] + b)[..|y|];
  }

  lemma PrefixBeforeColon(x: string, y: string, z: string)
    requires ':' !in x && ':' !in y && "b" + x + ":" <= "b" + y + ":" + z
    ensures x == y
  {
    var s := "b" + y + ":" + z;
    var rest := s[|x| + 2..];
    assert s == ("b" + x + ":") + rest;
    assert s[1..] == x + [':'] + rest;
    assert s[1..] == y + [':'] + z;
    SameUpTo(x, y, ':', rest, z);
  }

  /** A bucket's prefix starts exactly that bucket's marks, shared digits or not. */
  lemma PrefixNamesBucket(m: Mark, bucket: int)
    ensures BucketPrefix(bucket) <= PrintMark(m) <==> m.bucket == bucket
  {
    if BucketPrefix(bucket) <= PrintMark(m) {
      FormatIntChars(bucket, ':');
      FormatIntChars(m.bucket, ':');
      PrefixBeforeColon(FormatInt(bucket), FormatInt(m.bucket), FormatInt(m.seqNo));
      FormatIntInjective(bucket, m.bucket);
    }
  }

  lemma PrintMarkChars(m: Mark, c: char)
    requires c == ',' || c == '|'
    ensures c !in PrintMark(m)
  {
    FormatIntChars(m.bucket, c);
    FormatIntChars(m.seqNo, c);
  }

  lemma SplitFirst(a: string, rest: string)
    requires ',' !in a
    ensures Split(a + [','] + rest, ',') == [a] + Split(rest, ',')
  {
    IndexOfFirst(a, ',', rest);
    var s := a + [','] + rest;
    assert s[..|a|] == a && s[|a| + 1..] == rest;
  }

  /** The first part decides when it is the bucket's; otherwise the others do. */
  lemma FindInFirst(m: Mark, rest: seq<string>, bucket: int)
    requires INT64_MIN <= m.seqNo <= INT64_MAX
    ensures FindPart([PrintMark(m)] + rest, BucketPrefix(bucket))
         == if m.bucket == bucket then Some(m.seqNo) else FindPart(rest, BucketPrefix(bucket))
  {
    var parts, prefix := [PrintMark(m)] + rest, BucketPrefix(bucket);
    assert parts[0] == PrintMark(m) && parts[1..] == rest;
    PrefixNamesBucket(m, bucket);
    if m.bucket == bucket {
      assert PrintMark(m)[|prefix|..] == FormatInt(m.seqNo);
      FormatParse(m.seqNo);
    }
  }

  lemma OnePart(s: string)
    requires ',' !in s
    ensures Split(s, ',') == [s]
  {
  }

  /** Splitting the printed marks finds the bucket's sequence, or 0. */
  lemma {:induction false} FindPrinted(marks: seq<Mark>, bucket: int)
    requires forall n :: 0 <= n < |marks| ==> INT64_MIN <= marks[n].seqNo <= INT64_MAX
    ensures FindPart(Split(PrintMarks(marks), ','), BucketPrefix(bucket)) == Some(SeqOf(marks, bucket))
  {
    if marks == [] {
      assert Split("", ',') == [""] && [""][1..] == [];
    } else {
      var m := marks[0];
      PrintMarkChars(m, ',');
      if |marks| == 1 {
        OnePart(PrintMark(m));
        FindInFirst(m, [], bucket);
        assert [PrintMark(m)] + [] == [PrintMark(m)];
        assert SeqOf(marks[1..], bucket) == 0;
      } else {
        var rest := PrintMarks(marks[1..]);
        assert PrintMarks(marks) == PrintMark(m) + [','] + rest;
        SplitFirst(PrintMark(m), rest);
        FindInFirst(m, Split(rest, ','), bucket);
        FindPrinted(marks[1..], bucket);
      }
    }
  }

  /**
    Round trip: for every 64-bit epoch and every list of marks, parsing the
    printed version gives back the epoch and the bucket's sequence, 0 when the
    bucket is not mentioned.
  */
  lemma PrintThenParse(epoch: int, marks: seq<Mark>, bucket: int)
    requires INT64_MIN <= epoch <= INT64_MAX
    requires forall n :: 0 <= n < |marks| ==> INT64_MIN <= marks[n].seqNo <= INT64_MAX
    ensures Parse(Print(epoch, marks), bucket) == Parsed(epoch, SeqOf(marks, bucket))
  {
    var head := "e" + FormatInt(epoch);
    var rv := Print(epoch, marks);
    FormatIntChars(epoch, '|');
    assert rv == head + ['|'] + PrintMarks(marks);
    IndexOfFirst(head, '|', PrintMarks(marks));
    assert rv[..|head|] == head && rv[|head| + 1..] == PrintMarks(marks);
    assert TrimPrefix(head, "e") == FormatInt(epoch);
    FormatParse(epoch);
    FindPrinted(marks, bucket);
  }

  function JoinParts(parts: seq<string>, sep: char): string {
    if parts == [] then "" else if |parts| == 1 then parts[0] else parts[0] + [sep] + JoinParts(parts[1..], sep)
  }

  /** Splitting undoes joining: the parts have no separator and join to the string. */
  lemma {:induction false} SplitExact(s: string, sep: char)
    ensures Split(s, sep) != [] && JoinParts(Split(s, sep), sep) == s
    ensures forall n :: 0 <= n < |Split(s, sep)| ==> sep !in Split(s, sep)[n]
    decreases |s|
  {
    var n := IndexOf(s, sep);
    if n < |s| {
      SplitExact(s[n + 1..], sep);
      var rest := Split(s[n + 1..], sep);
      assert ([s[..n]] + rest)[1..] == rest;
      assert s == s[..n] + [sep] + s[n + 1..];
    } else {
      assert s[..n] == s;
    }
  }

  /** The version before the first bar, with or without its `e`, is the epoch; the parts after it are the buckets'. */
  lemma ParseMeans(head: string, tail: string, bucket: int)
    requires '|' !in head
    ensures var epoch := ParseInt(if "e" <= head then head[1..] else head);
      var hwm := FindPart(Split(tail, ','), BucketPrefix(bucket));
      Parse(head + "|" + tail, bucket) ==
        if epoch.None? || hwm.None? then Malformed else Parsed(epoch.value, hwm.value)
  {
    var rv := head + ['|'] + tail;
    IndexOfFirst(head, '|', tail);
    assert rv[..|head|] == head && rv[|head| + 1..] == tail;
    assert head + "|" + tail == rv;
  }

  lemma FormatExamples()
    ensures FormatInt(7) == "7" && FormatInt(1044) == "1044" && FormatInt(902) == "902"
    ensures BucketPrefix(2) == "b2:" && BucketPrefix(5) == "b5:"
  {
    FormatMore(104, 4);
    FormatMore(10, 4);
    FormatMore(1, 0);
    FormatMore(90, 2);
    FormatMore(9, 0);
  }

  /** The format, by example. */
  lemma PrintedFormat()
    ensures Print(7, [Mark(2, 1044), Mark(5, 902)]) == "e7|b2:1044,b5:902"
  {
    FormatExamples();
    var marks := [Mark(2, 1044), Mark(5, 902)];
    assert marks[1..] == [Mark(5, 902)];
    assert PrintMark(marks[0]) == "b2:1044" && PrintMark(marks[1]) == "b5:902";
    assert PrintMarks(marks) == "b2:1044" + "," + "b5:902";
  }

  /** With one mark per bucket, `SeqOf` is the sequence of each bucket mentioned. */
  lemma {:induction false} SeqOfMark(marks: seq<Mark>, n: nat)
    requires n < |marks|
    requires forall a, b :: 0 <= a < b < |marks| ==> marks[a].bucket != marks[b].bucket
    ensures SeqOf(marks, marks[n].bucket) == marks[n].seqNo
  {
    if n > 0 {
      SeqOfMark(marks[1..], n - 1);
    }
  }
}
