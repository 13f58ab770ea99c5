/**
  The `urls` form field of the bulk-download request is one string holding
  comma-separated URLs (app.py:15-16). It is turned into a list by splitting
  on ',', stripping whitespace from every piece and dropping the pieces that
  are left empty. This module models that list comprehension and Python's
  `str.split(",")`, `str.strip()` and `",".join` as total functions on strings.
*/
module UrlList {

  /** The separator the form field is split on. */
  const Sep: char := ','

  /** Python's `str.isspace()` for one character: exactly the characters that
      `str.strip()` with no argument removes (the ASCII controls TAB..CR and
      FS..US, SPACE, NEL, NO-BREAK SPACE and the Unicode space separators). */
  predicate IsSpace(c: char)
  {
    var n := c as int;
    (0x09 <= n <= 0x0D) || (0x1C <= n <= 0x20) || n == 0x85 || n == 0xA0 || n == 0x1680
    || (0x2000 <= n <= 0x200A) || n == 0x2028 || n == 0x2029 || n == 0x202F
    || n == 0x205F || n == 0x3000
  }

  /** Every character of `s` is whitespace (the empty string included). */
  predicate Blank(s: string)
  {
    forall k :: 0 <= k < |s| ==> IsSpace(s[k])
  }

  /** `s` neither starts nor ends with whitespace. */
  predicate Stripped(s: string)
  {
    s == [] || (!IsSpace(s[0]) && !IsSpace(s[|s| - 1]))
  }

  predicate CommaFree(s: string)
  {
    Sep !in s
  }

  /** The leading-whitespace half of `str.strip()`: the longest suffix of `s`
      that does not start with whitespace; everything dropped is whitespace. */
  function TrimStart(s: string): (r: string)
    ensures |r| <= |s| && r == s[|s| - |r|..]
    ensures r == [] || !IsSpace(r[0])
    ensures forall k :: 0 <= k < |s| - |r| ==> IsSpace(s[k])
  {
    if s != [] && IsSpace(s[0]) then
      var r := TrimStart(s[1..]);
      assert forall k :: 1 <= k < |s| - |r| ==> s[k] == s[1..][k - 1];
      r
    else s
  }

  /** The trailing-whitespace half of `str.strip()`: the longest prefix of `s`
      that does not end with whitespace; everything dropped is whitespace. */
  function TrimEnd(s: string): (r: string)
    ensures |r| <= |s| && r == s[..|r|]
    ensures r == [] || !IsSpace(r[|r| - 1])
    ensures forall k :: |r| <= k < |s| ==> IsSpace(s[k])
  {
    if s != [] && IsSpace(s[|s| - 1]) then
      var r := TrimEnd(s[..|s| - 1]);
      assert forall k :: |r| <= k < |s| - 1 ==> s[k] == s[..|s| - 1][k];
      r
    else s
  }

  /** Python's `s.strip()`: the result neither starts nor ends with
      whitespace, and it is empty exactly when `s` is all whitespace. */
  function Strip(s: string): (r: string)
    ensures Stripped(r)
    ensures r == [] <==> Blank(s)
  {
    TrimEnd(TrimStart(s))
  }

  /** `Strip(s)` is the infix `s[i..j]` and everything outside it is
      whitespace: the exact meaning of `str.strip()`. */
  lemma StripBounds(s: string) returns (i: nat, j: nat)
    ensures i <= j <= |s| && Strip(s) == s[i..j]
    ensures forall k :: 0 <= k < i ==> IsSpace(s[k])
    ensures forall k :: j <= k < |s| ==> IsSpace(s[k])
  {
    var t := TrimStart(s);
    var r := TrimEnd(t);
    i := |s| - |t|;
    j := i + |r|;
    assert t == s[i..];
    assert r == t[..|r|];
    assert r == s[i..j];
    forall k | j <= k < |s| ensures IsSpace(s[k]) {
      assert s[k] == t[k - i];
    }
  }

  /** A string that is already stripped is returned as it is. */
  lemma StripNoop(s: string)
    requires Stripped(s)
    ensures Strip(s) == s
  {
  }

  /** Stripping cannot bring in a comma. */
  lemma StripCommaFree(s: string)
    requires CommaFree(s)
    ensures CommaFree(Strip(s))
  {
  }

  /** Python's `s.split(",")`: the pieces between commas, always at least one
      (`"".split(",") == [""]`), none holding a comma. */
  function Split(s: string): (r: seq<string>)
    ensures |r| >= 1
    ensures forall k :: 0 <= k < |r| ==> CommaFree(r[k])
  {
    if s == [] then [""]
    else
      var rest := Split(s[1..]);
      if s[0] == Sep then [""] + rest
      else [[s[0]] + rest[0]] + rest[1..]
  }

  /** A split has one more piece than the string has commas. */
  lemma {:induction false} SplitCount(s: string)
    ensures |Split(s)| == multiset(s)[Sep] + 1
  {
    if s != [] {
      SplitCount(s[1..]);
      assert s == [s[0]] + s[1..];
    }
  }

  /** Python's `",".join(xs)`. */
  function Join(xs: seq<string>): string
  {
    if xs == [] then ""
    else if |xs| == 1 then xs[0]
    else xs[0] + [Sep] + Join(xs[1..])
  }

  /** Prepending a character to the first piece prepends it to the join. */
  lemma JoinConsChar(c: char, xs: seq<string>)
    requires xs != []
    ensures Join([[c] + xs[0]] + xs[1..]) == [c] + Join(xs)
  {
  }

  /** Joining the pieces of a split gives back the original string. */
  lemma {:induction false} SplitJoin(s: string)
    ensures Join(Split(s)) == s
  {
    if s != [] {
      var rest := Split(s[1..]);
      SplitJoin(s[1..]);
      if s[0] == Sep {
        assert ([""] + rest)[1..] == rest;
      } else {
        JoinConsChar(s[0], rest);
      }
    }
  }

  /** A string without commas splits into itself. */
  lemma {:induction false} SplitCommaFree(a: string)
    requires CommaFree(a)
    ensures Split(a) == [a]
  {
    if a != [] {
      SplitCommaFree(a[1..]);
      assert a == [a[0]] + a[1..];
    }
  }

  /** A comma-free first piece followed by a comma is split off on its own. */
  lemma {:induction false} SplitFirstPiece(a: string, t: string)
    requires CommaFree(a)
    ensures Split(a + [Sep] + t) == [a] + Split(t)
  {
    var s := a + [Sep] + t;
    if a == [] {
      assert s[1..] == t;
    } else {
      assert s[1..] == a[1..] + [Sep] + t;
      SplitFirstPiece(a[1..], t);
      assert a == [a[0]] + a[1..];
    }
  }

  /** Splitting a join of comma-free pieces gives the pieces back; with
      SplitJoin this says that Split(s) is the one non-empty list of
      comma-free pieces whose join is s. */
  lemma {:induction false} JoinSplit(xs: seq<string>)
    requires xs != []
    requires forall k :: 0 <= k < |xs| ==> CommaFree(xs[k])
    ensures Split(Join(xs)) == xs
  {
    if |xs| == 1 {
      SplitCommaFree(xs[0]);
    } else {
      JoinSplit(xs[1..]);
      SplitFirstPiece(xs[0], Join(xs[1..]));
    }
  }

  /** Every piece stripped (the `url.strip()` of the comprehension). */
  function StripAll(segs: seq<string>): seq<string>
  {
    seq(|segs|, k requires 0 <= k < |segs| => Strip(segs[k]))
  }

  /** The `if url.strip()` filter of the comprehension: the pieces that are
      not empty, in order. */
  function DropEmpty(xs: seq<string>): seq<string>
  {
    if xs == [] then []
    else if xs[0] == [] then DropEmpty(xs[1..])
    else [xs[0]] + DropEmpty(xs[1..])
  }

  /** The list of URLs the handler works on (app.py:16): the
      comma-separated pieces of the field, each stripped, the empty ones
      dropped. */
  function ParseUrls(input: string): seq<string>
  {
    DropEmpty(StripAll(Split(input)))
  }

  /** Every parsed URL is non-empty, has no surrounding whitespace and holds
      no comma. */
  lemma ParseUrlsClean(input: string)
    ensures forall k :: 0 <= k < |ParseUrls(input)| ==>
              ParseUrls(input)[k] != [] && Stripped(ParseUrls(input)[k]) && CommaFree(ParseUrls(input)[k])
  {
    var segs := Split(input);
    var stripped := StripAll(segs);
    KeptPicks(stripped);
    forall j | 0 <= j < |segs| ensures CommaFree(stripped[j]) {
      StripCommaFree(segs[j]);
    }
  }

  /** Filtering a concatenation is concatenating the filtered parts. */
  lemma {:induction false} DropEmptyAppend(a: seq<string>, b: seq<string>)
    ensures DropEmpty(a + b) == DropEmpty(a) + DropEmpty(b)
  {
    if a != [] {
      assert (a + b)[0] == a[0] && (a + b)[1..] == a[1..] + b;
      DropEmptyAppend(a[1..], b);
    } else {
      assert a + b == b;
    }
  }

  /** One more piece at the end is kept at the end, unless it is empty. */
  lemma DropEmptySnoc(init: seq<string>, last: string)
    ensures DropEmpty(init + [last]) == DropEmpty(init) + (if last == [] then [] else [last])
  {
    DropEmptyAppend(init, [last]);
    assert [last][1..] == [];
  }

  /** The positions of the non-empty pieces, in increasing order. */
  function Kept(xs: seq<string>): (idx: seq<nat>)
    ensures forall k :: 0 <= k < |idx| ==> idx[k] < |xs| && xs[idx[k]] != []
  {
    if xs == [] then []
    else
      var n := |xs| - 1;
      var init := Kept(xs[..n]);
      assert forall k :: 0 <= k < |init| ==> xs[..n][init[k]] == xs[init[k]];
      init + (if xs[n] == [] then [] else [n])
  }

  lemma {:induction false} KeptIncreasing(xs: seq<string>)
    ensures forall k, l :: 0 <= k < l < |Kept(xs)| ==> Kept(xs)[k] < Kept(xs)[l]
  {
    if xs != [] {
      KeptIncreasing(xs[..|xs| - 1]);
    }
  }

  /** The filter keeps exactly the pieces at the kept positions, in order. */
  lemma {:induction false} KeptPicks(xs: seq<string>)
    ensures |Kept(xs)| == |DropEmpty(xs)|
    ensures forall k :: 0 <= k < |Kept(xs)| ==> DropEmpty(xs)[k] == xs[Kept(xs)[k]]
  {
    if xs != [] {
      var n := |xs| - 1;
      var init := xs[..n];
      assert xs == init + [xs[n]];
      DropEmptySnoc(init, xs[n]);
      KeptPicks(init);
      forall k | 0 <= k < |Kept(init)| ensures DropEmpty(xs)[k] == xs[Kept(xs)[k]] {
        assert init[Kept(init)[k]] == xs[Kept(init)[k]];
      }
    }
  }

  /** Every non-empty piece has its position kept. */
  lemma {:induction false} KeptComplete(xs: seq<string>)
    ensures forall j :: 0 <= j < |xs| && xs[j] != [] ==> j in Kept(xs)
  {
    if xs != [] {
      var n := |xs| - 1;
      var init := xs[..n];
      var tail: seq<nat> := if xs[n] == [] then [] else [n];
      assert Kept(xs) == Kept(init) + tail;
      KeptComplete(init);
      forall j | 0 <= j < |xs| && xs[j] != [] ensures j in Kept(xs) {
        if j < n {
          assert init[j] == xs[j];
          assert j in Kept(init);
        } else {
          assert tail == [n];
        }
      }
    }
  }

  /** The parsed URLs are exactly the comma-separated pieces that do not
      strip to the empty string, stripped, in their original order: `idx`
      lists the positions of those pieces, strictly increasing, the k-th URL
      is the stripped piece at `idx[k]`, and every non-blank piece is listed.
      So there are as many URLs as non-blank pieces. */
  lemma ParseSpec(input: string) returns (idx: seq<nat>)
    ensures |idx| == |ParseUrls(input)|
    ensures forall k :: 0 <= k < |idx| ==>
              idx[k] < |Split(input)| && ParseUrls(input)[k] == Strip(Split(input)[idx[k]])
              && Strip(Split(input)[idx[k]]) != []
    ensures forall k, l :: 0 <= k < l < |idx| ==> idx[k] < idx[l]
    ensures forall j :: 0 <= j < |Split(input)| && Strip(Split(input)[j]) != [] ==> j in idx
  {
    var segs := Split(input);
    var stripped := StripAll(segs);
    assert ParseUrls(input) == DropEmpty(stripped);
    idx := Kept(stripped);
    KeptIncreasing(stripped);
    KeptPicks(stripped);
    KeptComplete(stripped);
    forall k | 0 <= k < |idx|
      ensures idx[k] < |segs| && ParseUrls(input)[k] == Strip(segs[idx[k]]) && Strip(segs[idx[k]]) != []
    {
      assert DropEmpty(stripped)[k] == stripped[idx[k]];
      assert stripped[idx[k]] == Strip(segs[idx[k]]);
    }
    forall j | 0 <= j < |segs| && Strip(segs[j]) != [] ensures j in idx {
      assert stripped[j] == Strip(segs[j]);
    }
  }

  /** Non-empty pieces all pass the filter. */
  lemma {:induction false} DropEmptyClean(xs: seq<string>)
    requires forall k :: 0 <= k < |xs| ==> xs[k] != []
    ensures DropEmpty(xs) == xs
  {
    if xs != [] {
      DropEmptyClean(xs[1..]);
    }
  }

  /** Joining any list of clean URLs (non-empty, no surrounding whitespace,
      no comma) with ',' and parsing the result gives the list back. */
  lemma {:induction false} ParseJoin(xs: seq<string>)
    requires forall k :: 0 <= k < |xs| ==> xs[k] != [] && Stripped(xs[k]) && CommaFree(xs[k])
    ensures ParseUrls(Join(xs)) == xs
  {
    if xs == [] {
      assert Split("") == [""];
      assert StripAll([""]) == [""];
    } else {
      JoinSplit(xs);
      forall k | 0 <= k < |xs| ensures Strip(xs[k]) == xs[k] {
        StripNoop(xs[k]);
      }
      assert StripAll(xs) == xs;
      DropEmptyClean(xs);
    }
  }

  /** Round trip: re-parsing the comma-join of a parsed list yields that list. */
  lemma {:induction false} ParseRoundTrip(input: string)
    ensures ParseUrls(Join(ParseUrls(input))) == ParseUrls(input)
  {
    ParseUrlsClean(input);
    ParseJoin(ParseUrls(input));
  }
}
