/** The order of strings. */
module StringOrder {

  /** The lexicographic order of the characters. */
  predicate Less(a: string, b: string) {
    b != "" && (a == "" || a[0] < b[0] || (a[0] == b[0] && Less(a[1..], b[1..])))
  }

  /** The order of strings is a strict total order. */
  lemma {:induction false} LessIsTotal(a: string, b: string)
    ensures !(Less(a, b) && Less(b, a))
    ensures a != b ==> Less(a, b) || Less(b, a)
    ensures a == b ==> !Less(a, b)
  {
    if a != "" && b != "" {
      LessIsTotal(a[1..], b[1..]);
      if a != b && a[0] == b[0] {
        assert a == [a[0]] + a[1..] && b == [b[0]] + b[1..];
      }
    }
  }

  lemma {:induction false} LessIsTransitive(a: string, b: string, c: string)
    requires Less(a, b) && Less(b, c)
    ensures Less(a, c)
  {
    if a != "" && a[0] == b[0] && b[0] == c[0] {
      LessIsTransitive(a[1..], b[1..], c[1..]);
    }
  }

  lemma PastFirst(p: string, s: string)
    requires p != ""
    ensures (p + s)[0] == p[0] && (p + s)[1..] == p[1..] + s
  {
  }

  /** The first characters that differ decide. */
  lemma {:induction false} FirstDifferenceDecides(p: string, x: char, s: string, y: char, t: string)
    requires x != y
    ensures Less(p + ([x] + s), p + ([y] + t)) <==> x < y
  {
    var a, b := [x] + s, [y] + t;
    if p == "" {
      assert p + a == a && p + b == b;
    } else {
      PastFirst(p, a);
      PastFirst(p, b);
      FirstDifferenceDecides(p[1..], x, s, y, t);
    }
  }

  /** A string comes before every longer one that it begins, and never behind it. */
  lemma {:induction false} PrefixComesFirst(p: string, s: string)
    ensures Less(p, p + s) <==> s != ""
    ensures !Less(p + s, p)
  {
    if p == "" {
      assert p + s == s;
    } else {
      PastFirst(p, s);
      PrefixComesFirst(p[1..], s);
    }
  }
}
