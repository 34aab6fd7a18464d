/** Python's ordering of text, and the separator-joined list of a sorted set of labels. */
module Strings {
  import Orders

  predicate Less(a: string, b: string) {
    b != [] && (a == [] || a[0] < b[0] || (a[0] == b[0] && Less(a[1..], b[1..])))
  }

  lemma {:induction false} LessIrreflexive(a: string)
    ensures !Less(a, a)
  {
    if a != [] {
      LessIrreflexive(a[1..]);
    }
  }

  lemma {:induction false} LessTotal(a: string, b: string)
    ensures a == b || Less(a, b) || Less(b, a)
    ensures !(Less(a, b) && Less(b, a))
  {
    if a != [] && b != [] {
      LessTotal(a[1..], b[1..]);
      if a[0] == b[0] && a[1..] == b[1..] {
        assert a == [a[0]] + a[1..];
        assert b == [b[0]] + b[1..];
      }
    }
  }

  lemma {:induction false} LessTransitive(a: string, b: string, c: string)
    requires Less(a, b) && Less(b, c)
    ensures Less(a, c)
  {
    if a != [] && a[0] == b[0] && b[0] == c[0] {
      LessTransitive(a[1..], b[1..], c[1..]);
    }
  }

  lemma LessIsTotalOrder()
    ensures Orders.TotalOrder(Less)
  {
    forall a, b ensures a == b || Less(a, b) || Less(b, a) {
      LessTotal(a, b);
    }
    forall a, b ensures !(Less(a, b) && Less(b, a)) {
      LessTotal(a, b);
    }
    forall a, b, c | Less(a, b) && Less(b, c) ensures Less(a, c) {
      LessTransitive(a, b, c);
    }
  }

  function Least(s: set<string>): (m: string)
    requires s != {}
    ensures m in s && forall x :: x in s ==> x == m || Less(m, x)
  {
    LessIsTotalOrder();
    Orders.Least(Less, s)
  }

  /** Python's `sorted` on a set of labels. */
  function Sorted(s: set<string>): (r: seq<string>)
    ensures |r| == |s| && forall x :: x in r <==> x in s
    ensures forall i, j :: 0 <= i < j < |r| ==> Less(r[i], r[j])
    decreases |s|
  {
    if s == {} then []
    else
      var m := Least(s);
      var rest := Sorted(s - {m});
      assert forall i :: 0 <= i < |rest| ==> rest[i] in s - {m};
      [m] + rest
  }

  // ---------------------------------------------------------------- joining with '|'

  const BAR := '|'

  /** `"|".join(parts)`. */
  function Join(parts: seq<string>): string {
    if |parts| == 0 then []
    else if |parts| == 1 then parts[0]
    else parts[0] + [BAR] + Join(parts[1..])
  }

  /** Cuts at every bar; the inverse of `Join` on bar-free parts. */
  function Split(text: string): (parts: seq<string>)
    ensures |parts| > 0
  {
    if text == [] then [[]]
    else if text[0] == BAR then [[]] + Split(text[1..])
    else
      var rest := Split(text[1..]);
      [[text[0]] + rest[0]] + rest[1..]
  }

  lemma {:induction false} SplitHead(tag: string, rest: string)
    requires BAR !in tag
    ensures Split(tag + [BAR] + rest) == [tag] + Split(rest)
    ensures Split(tag) == [tag]
  {
    if tag == [] {
      assert tag + [BAR] + rest == [BAR] + rest;
    } else {
      SplitHead(tag[1..], rest);
      assert (tag + [BAR] + rest)[1..] == tag[1..] + [BAR] + rest;
      assert [tag[0]] + tag[1..] == tag;
    }
  }

  lemma {:induction false} SplitJoin(parts: seq<string>)
    requires parts != [] && forall p :: p in parts ==> BAR !in p
    ensures Split(Join(parts)) == parts
  {
    if |parts| == 1 {
      SplitHead(parts[0], []);
    } else {
      SplitJoin(parts[1..]);
      SplitHead(parts[0], Join(parts[1..]));
      assert parts == [parts[0]] + parts[1..];
    }
  }

  /** A label that can take part in a joined payload: not empty and without a bar. */
  predicate Clean(tag: string) {
    tag != [] && BAR !in tag
  }

  ghost predicate AllClean(s: set<string>) {
    forall x :: x in s ==> Clean(x)
  }

  function Payload(s: set<string>): string {
    Join(Sorted(s))
  }

  /** The labels a payload was joined from. */
  ghost function Labels(payload: string): set<string> {
    if payload == [] then {} else set p | p in Split(payload)
  }

  lemma PayloadRoundTrip(s: set<string>)
    requires AllClean(s)
    ensures Labels(Payload(s)) == s
  {
    var parts := Sorted(s);
    if s != {} {
      SplitJoin(parts);
      assert Payload(s) != [] by {
        assert parts[0] in s && Clean(parts[0]);
      }
    } else {
      assert parts == [];
    }
  }
}
