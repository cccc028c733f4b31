/**
  The string operations the navigation links apply to their labels:
  `String.prototype.toLowerCase` (on ASCII text), `indexOf` of a single
  character, and `replace` with a string pattern, which rewrites only the
  FIRST occurrence.
 */
module Slug {

  predicate IsUpperAscii(c: char) {
    'A' <= c <= 'Z'
  }

  /** One character of `toLowerCase`: an upper-case letter becomes its own lower-case letter. */
  function LowerAscii(c: char): (l: char)
    ensures !IsUpperAscii(l)
    ensures IsUpperAscii(c) ==> 'a' <= l <= 'z' && l as int - 'a' as int == c as int - 'A' as int
    ensures !IsUpperAscii(c) ==> l == c
  {
    if IsUpperAscii(c) then (c as int + 32) as char else c
  }

  /** `s.toLowerCase()` restricted to ASCII letters: each character is lowered in place. */
  function ToLowerAscii(s: string): (r: string)
    ensures |r| == |s|
    ensures forall i :: 0 <= i < |r| ==> !IsUpperAscii(r[i])
    ensures forall i :: 0 <= i < |s| ==> r[i] == LowerAscii(s[i])
  {
    seq(|s|, i requires 0 <= i < |s| => LowerAscii(s[i]))
  }

  /** Lower-casing twice is lower-casing once. */
  lemma ToLowerIdempotent(s: string)
    ensures ToLowerAscii(ToLowerAscii(s)) == ToLowerAscii(s)
  {
  }

  /** Lower-casing leaves a string unchanged exactly when it has no upper-case letter. */
  lemma ToLowerFixedExactly(s: string)
    ensures ToLowerAscii(s) == s <==> forall i :: 0 <= i < |s| ==> !IsUpperAscii(s[i])
  {
    if ToLowerAscii(s) == s {
      forall i | 0 <= i < |s| ensures !IsUpperAscii(s[i]) {
        assert s[i] == ToLowerAscii(s)[i];
      }
    }
  }

  /** `s.indexOf(c)`: scans from the left, giving a position in `s` or -1. */
  function IndexOf(s: string, c: char): (k: int)
    ensures -1 <= k < |s|
  {
    if |s| == 0 then -1
    else if s[0] == c then 0
    else
      var k := IndexOf(s[1..], c);
      if k < 0 then -1 else k + 1
  }

  /** `indexOf` reports the FIRST occurrence of `c`, and -1 exactly when there is none. */
  lemma {:induction false} IndexOfFirst(s: string, c: char)
    ensures IndexOf(s, c) == -1 <==> c !in s
    ensures 0 <= IndexOf(s, c) ==> s[IndexOf(s, c)] == c && c !in s[..IndexOf(s, c)]
  {
    if |s| > 0 && s[0] != c {
      var k := IndexOf(s[1..], c);
      IndexOfFirst(s[1..], c);
      assert s == [s[0]] + s[1..];
      if k >= 0 {
        assert s[..k + 1] == [s[0]] + s[1..][..k];
      }
    }
  }

  /**
    `s.replace(from, to)` for one-character strings: the string is searched
    for `from` as `indexOf` does, and only that first match becomes `to`.
   */
  function ReplaceFirst(s: string, from: char, to: char): (r: string)
    ensures |r| == |s|
  {
    var k := IndexOf(s, from);
    if k < 0 then s else s[k := to]
  }

  /** ReplaceFirst changes exactly the position `indexOf` reports and nothing else. */
  lemma ReplaceFirstAt(s: string, from: char, to: char)
    ensures |ReplaceFirst(s, from, to)| == |s|
    ensures forall i :: 0 <= i < |s| ==>
      ReplaceFirst(s, from, to)[i] == (if i == IndexOf(s, from) then to else s[i])
  {
  }

  /** Overwriting one occurrence of `c` with another character leaves one `c` fewer. */
  lemma UpdateDropsOne(s: string, k: nat, c: char, to: char)
    requires k < |s| && s[k] == c && c != to
    ensures multiset(s[k := to])[c] == multiset(s)[c] - 1
  {
    var before, after := s[..k], s[k + 1..];
    assert s == before + [c] + after;
    assert s[k := to] == before + [to] + after;
    assert multiset(s) == multiset(before) + multiset{c} + multiset(after);
    assert multiset(s[k := to]) == multiset(before) + multiset{to} + multiset(after);
  }

  /** Only one occurrence is rewritten: every later `from` survives. */
  lemma ReplaceFirstCount(s: string, from: char, to: char)
    requires from != to
    ensures multiset(ReplaceFirst(s, from, to))[from]
         == if from in s then multiset(s)[from] - 1 else multiset(s)[from]
  {
    var k := IndexOf(s, from);
    IndexOfFirst(s, from);
    if k >= 0 {
      UpdateDropsOne(s, k, from, to);
    }
  }

  /** Lower-casing neither creates nor moves a space. */
  lemma LowerKeepsFirstSpace(s: string)
    ensures IndexOf(ToLowerAscii(s), ' ') == IndexOf(s, ' ')
  {
    var l := ToLowerAscii(s);
    var k := IndexOf(s, ' ');
    IndexOfFirst(s, ' ');
    IndexOfFirst(l, ' ');
    assert forall i :: 0 <= i < |s| ==> (l[i] == ' ' <==> s[i] == ' ');
    if k >= 0 {
      assert l[k] == ' ';
      assert ' ' !in l[..k] by {
        forall i | 0 <= i < k ensures l[..k][i] != ' ' {
          assert s[..k][i] == s[i];
        }
      }
    } else {
      assert ' ' !in l by {
        forall i | 0 <= i < |l| ensures l[i] != ' ' {
          assert s[i] in s;
        }
      }
    }
  }

  /** The fragment id a navigation label links to: `item.toLowerCase().replace(' ', '-')`. */
  function NavSlug(item: string): (slug: string)
    ensures |slug| == |item|
  {
    ReplaceFirst(ToLowerAscii(item), ' ', '-')
  }

  /**
    A slug has the label's length; every letter is lowered and the first
    space of the label (if any) becomes '-', while a later space stays.
   */
  lemma NavSlugAt(item: string)
    ensures |NavSlug(item)| == |item|
    ensures forall i :: 0 <= i < |item| ==>
      NavSlug(item)[i] == (if i == IndexOf(item, ' ') then '-' else LowerAscii(item[i]))
    ensures forall i :: 0 <= i < |item| ==> !IsUpperAscii(NavSlug(item)[i])
  {
    ReplaceFirstAt(ToLowerAscii(item), ' ', '-');
    LowerKeepsFirstSpace(item);
  }

  /** A label without a space is only lowered. */
  lemma NavSlugWithoutSpace(item: string)
    requires ' ' !in item
    ensures NavSlug(item) == ToLowerAscii(item)
  {
    IndexOfFirst(item, ' ');
    LowerKeepsFirstSpace(item);
  }

  /** The `href` of a navigation link: `#` followed by the slug. */
  function NavHref(item: string): (href: string)
    ensures |href| == |item| + 1 && href[0] == '#'
    ensures href[1..] == NavSlug(item)
  {
    "#" + NavSlug(item)
  }
}
