/**
  Looking paths up in git's sorted listing (internal/verify/enumerate.go), with the binary
  searches of sort.Search: one path, and every path that a declared input covers.

  Everything below a directory is one contiguous run of the listing, found by two binary
  searches; the directory itself, which may stand apart from its run, is looked up on its own.
  Strings compare as `TextLe` says.
 */
module Listing {
  import opened Order
  import opened Paths

  /** sort.Search: the first index at which f holds, when it holds from some index on. */
  method Search(n: nat, f: int --> bool) returns (first: nat)
    requires forall i :: 0 <= i < n ==> f.requires(i)
    requires forall i, j :: 0 <= i < j < n && f(i) ==> f(j)
    ensures first <= n
    ensures forall i :: 0 <= i < first ==> !f(i)
    ensures forall i :: first <= i < n ==> f(i)
  {
    var i, j := 0, n;
    while i < j
      invariant 0 <= i <= j <= n
      invariant forall k :: 0 <= k < i ==> !f(k)
      invariant forall k :: j <= k < n ==> f(k)
    {
      var h := (i + j) / 2;
      if !f(h) {
        i := h + 1;
      } else {
        j := h;
      }
    }
    first := i;
  }

  /** sort.SearchStrings: where x is, or would be put. */
  method SearchStrings(listed: seq<string>, x: string) returns (first: nat)
    requires Sorted(listed, TextLe)
    ensures first <= |listed|
    ensures forall i :: 0 <= i < first ==> !TextLe(x, listed[i])
    ensures forall i :: first <= i < |listed| ==> TextLe(x, listed[i])
  {
    forall i, j | 0 <= i < j < |listed| && TextLe(x, listed[i]) ensures TextLe(x, listed[j]) {
      TextTransitive(x, listed[i], listed[j]);
    }
    var reached := i requires 0 <= i < |listed| => TextLe(x, listed[i]);
    first := Search(|listed|, reached);
    assert forall i :: 0 <= i < |listed| ==> reached(i) == TextLe(x, listed[i]);
  }

  /** listedAt. */
  method ListedAt(listed: seq<string>, path: string) returns (found: bool)
    requires Sorted(listed, TextLe)
    ensures found <==> path in listed
  {
    var i := SearchStrings(listed, path);
    found := i < |listed| && listed[i] == path;
    if path in listed {
      var k :| 0 <= k < |listed| && listed[k] == path;
      TextTotal(path, path);
      assert i <= k;
      if i < k {
        assert TextLe(listed[i], listed[k]);
        TextTotal(listed[i], path);
      }
    }
  }

  lemma {:induction false} PrefixIsBelow(prefix: string, s: string)
    requires prefix <= s
    ensures TextLe(prefix, s)
  {
    if prefix != [] {
      assert prefix[1..] <= s[1..];
      PrefixIsBelow(prefix[1..], s[1..]);
    }
  }

  /** Once past what begins with a prefix, nothing later begins with it. */
  lemma {:induction false} PrefixRunEnds(prefix: string, a: string, b: string)
    requires TextLe(prefix, a) && !(prefix <= a) && TextLe(a, b)
    ensures !(prefix <= b)
  {
    if prefix != [] && b != [] && prefix[0] == a[0] == b[0] {
      assert prefix == [prefix[0]] + prefix[1..] && a == [a[0]] + a[1..];
      assert b == [b[0]] + b[1..];
      assert prefix <= a <==> prefix[1..] <= a[1..];
      assert prefix <= b <==> prefix[1..] <= b[1..];
      PrefixRunEnds(prefix[1..], a[1..], b[1..]);
    }
  }

  /** The paths that begin with a prefix: one run of the listing. */
  method PrefixRun(listed: seq<string>, prefix: string) returns (lo: nat, hi: nat)
    requires Sorted(listed, TextLe)
    ensures lo <= hi <= |listed|
    ensures forall k :: 0 <= k < |listed| ==> (prefix <= listed[k] <==> lo <= k < hi)
  {
    hide TextLe;
    lo := SearchStrings(listed, prefix);
    var past := i requires 0 <= i < |listed| - lo => !(prefix <= listed[lo + i]);
    forall i, j | 0 <= i < j < |listed| - lo && past(i) ensures past(j) {
      PrefixRunEnds(prefix, listed[lo + i], listed[lo + j]);
    }
    var run := Search(|listed| - lo, past);
    hi := lo + run;
    forall k | lo <= k < |listed| ensures prefix <= listed[k] <==> k < hi {
      assert past(k - lo) == !(prefix <= listed[k]);
    }
    forall k | 0 <= k < lo ensures !(prefix <= listed[k]) {
      if prefix <= listed[k] {
        PrefixIsBelow(prefix, listed[k]);
      }
    }
  }

  /** listedUnder: exactly the listed paths an input covers, in order when none repeats. */
  method ListedUnder(listed: seq<string>, input: string) returns (covered: seq<string>)
    requires Sorted(listed, TextLe)
    ensures forall p :: p in covered <==> p in listed && Under(p, input)
    ensures Strict(listed, TextLe) ==> Strict(covered, TextLe)
  {
    if input == "." {
      return listed;
    }
    var here := ListedAt(listed, input);
    covered := if here then [input] else [];
    var lo, hi := PrefixRun(listed, input + "/");
    RunIsFilter(listed, lo, hi, input + "/");
    InputIsFirst(listed, lo, hi, input);
    covered := covered + listed[lo..hi];
  }

  /** The input itself comes before the paths below it. */
  lemma InputIsFirst(listed: seq<string>, lo: nat, hi: nat, input: string)
    requires lo <= hi <= |listed| && forall k :: 0 <= k < |listed| ==> (input + "/" <= listed[k] <==> lo <= k < hi)
    ensures Strict(listed, TextLe) ==> Strict([input] + listed[lo..hi], TextLe) && Strict(listed[lo..hi], TextLe)
  {
    hide TextLe;
    forall k | lo <= k < hi ensures TextLe(input, listed[k]) && input != listed[k] {
      assert input + "/" <= listed[k];
      PrefixIsBelow(input, listed[k]);
    }
  }

  lemma RunIsFilter(listed: seq<string>, lo: nat, hi: nat, prefix: string)
    requires lo <= hi <= |listed| && forall k :: 0 <= k < |listed| ==> (prefix <= listed[k] <==> lo <= k < hi)
    ensures forall p :: p in listed[lo..hi] <==> p in listed && prefix <= p
  {
    forall p | p in listed && prefix <= p ensures p in listed[lo..hi] {
      var k :| 0 <= k < |listed| && listed[k] == p;
      assert listed[lo..hi][k - lo] == p;
    }
  }
}
