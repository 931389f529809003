/** The code cleaner: `Interpreter._cleanse_code` keeps the command characters of a program
    and drops every other character. */
module Sanitizer {

  /** The nine characters a cleaned program may contain: the eight commands and `_`. */
  predicate IsCommand(c: char) {
    c == '+' || c == '_' || c == '-' || c == '.' || c == ',' || c == '>' || c == '<' || c == ']' || c == '['
  }

  predicate AllCommands(s: string) {
    forall k :: 0 <= k < |s| ==> IsCommand(s[k])
  }

  /** The character filter that the substitution with the negated character class performs. */
  function Cleanse(s: string): (r: string)
    ensures |r| <= |s|
    decreases |s|
  {
    if s == [] then []
    else Cleanse(s[..|s| - 1]) + (if IsCommand(s[|s| - 1]) then [s[|s| - 1]] else [])
  }

  /** Only commands survive. */
  lemma {:induction false} CleanseCommandsOnly(s: string)
    ensures AllCommands(Cleanse(s))
    decreases |s|
  {
    if s != [] {
      CleanseCommandsOnly(s[..|s| - 1]);
    }
  }

  /** `idx` lists, in increasing order, the positions of `s` that `r` is made of, and it
      includes every position of `s` that holds a command. */
  ghost predicate Selects(s: string, r: string, idx: seq<int>) {
    && |idx| == |r|
    && (forall k :: 0 <= k < |idx| ==> 0 <= idx[k] < |s| && r[k] == s[idx[k]])
    && (forall k, l :: 0 <= k < l < |idx| ==> idx[k] < idx[l])
    && (forall j :: 0 <= j < |s| && IsCommand(s[j]) ==> j in idx)
  }

  /** The cleaned code is exactly the subsequence of the commands of the input, in their
      original order (together with `CleanseCommandsOnly`). */
  lemma {:induction false} CleanseIsSubsequence(s: string)
    ensures exists idx :: Selects(s, Cleanse(s), idx)
    decreases |s|
  {
    if s == [] {
      assert Cleanse(s) == [] && Selects(s, [], []);
    } else {
      var p := s[..|s| - 1];
      CleanseIsSubsequence(p);
      var idx :| Selects(p, Cleanse(p), idx);
      var idx' := SelectsLast(s, idx);
    }
  }

  /** One step of `CleanseIsSubsequence`: extends the positions selected from all but the
      last character of `s` by the last character, when it is a command. */
  lemma SelectsLast(s: string, idx: seq<int>) returns (idx': seq<int>)
    requires s != [] && Selects(s[..|s| - 1], Cleanse(s[..|s| - 1]), idx)
    ensures Selects(s, Cleanse(s), idx')
  {
    var n := |s| - 1;
    idx' := if IsCommand(s[n]) then idx + [n] else idx;
    SelectsLastValues(s, idx, idx');
    SelectsLastOrder(s, idx, idx');
    SelectsLastComplete(s, idx, idx');
  }

  /** The selected positions hold the characters of the cleaned code. */
  lemma SelectsLastValues(s: string, idx: seq<int>, idx': seq<int>)
    requires s != [] && Selects(s[..|s| - 1], Cleanse(s[..|s| - 1]), idx)
    requires idx' == if IsCommand(s[|s| - 1]) then idx + [|s| - 1] else idx
    ensures |idx'| == |Cleanse(s)|
    ensures forall k :: 0 <= k < |idx'| ==> 0 <= idx'[k] < |s| && Cleanse(s)[k] == s[idx'[k]]
  {
    var n := |s| - 1;
    var p := s[..n];
    var r := Cleanse(s);
    assert r == Cleanse(p) + (if IsCommand(s[n]) then [s[n]] else []);
    forall k | 0 <= k < |idx'| ensures 0 <= idx'[k] < |s| && r[k] == s[idx'[k]] {
      if k < |idx| {
        assert r[k] == Cleanse(p)[k];
        assert p[idx[k]] == s[idx[k]];
      }
    }
  }

  /** The selected positions are increasing. */
  lemma SelectsLastOrder(s: string, idx: seq<int>, idx': seq<int>)
    requires s != [] && Selects(s[..|s| - 1], Cleanse(s[..|s| - 1]), idx)
    requires idx' == if IsCommand(s[|s| - 1]) then idx + [|s| - 1] else idx
    ensures forall k, l :: 0 <= k < l < |idx'| ==> idx'[k] < idx'[l]
  {
    forall k, l | 0 <= k < l < |idx'| ensures idx'[k] < idx'[l] {
      if l < |idx| {
        assert idx'[k] == idx[k] && idx'[l] == idx[l];
      }
    }
  }

  /** Every command of `s` is selected. */
  lemma SelectsLastComplete(s: string, idx: seq<int>, idx': seq<int>)
    requires s != [] && Selects(s[..|s| - 1], Cleanse(s[..|s| - 1]), idx)
    requires idx' == if IsCommand(s[|s| - 1]) then idx + [|s| - 1] else idx
    ensures forall j :: 0 <= j < |s| && IsCommand(s[j]) ==> j in idx'
  {
    var n := |s| - 1;
    var p := s[..n];
    forall j | 0 <= j < |s| && IsCommand(s[j]) ensures j in idx' {
      if j < n {
        assert p[j] == s[j];
        assert j in idx;
      }
    }
  }

  /** Cleaning leaves a string alone exactly when it holds only commands. */
  lemma {:induction false} CleanseFixpoint(s: string)
    ensures Cleanse(s) == s <==> AllCommands(s)
    decreases |s|
  {
    CleanseCommandsOnly(s);
    if s != [] && AllCommands(s) {
      var p := s[..|s| - 1];
      assert AllCommands(p) by {
        forall k | 0 <= k < |p| ensures IsCommand(p[k]) {
          assert p[k] == s[k];
        }
      }
      CleanseFixpoint(p);
      assert s == p + [s[|s| - 1]];
    }
  }

  /** Cleaning already-cleaned code changes nothing. */
  lemma CleanseIdempotent(s: string)
    ensures Cleanse(Cleanse(s)) == Cleanse(s)
  {
    CleanseCommandsOnly(s);
    CleanseFixpoint(Cleanse(s));
  }

  predicate NoCommands(s: string) {
    forall k :: 0 <= k < |s| ==> !IsCommand(s[k])
  }

  /** Cleaning removes everything exactly when there is no command to keep. */
  lemma {:induction false} CleanseEmpty(s: string)
    ensures Cleanse(s) == [] <==> NoCommands(s)
    decreases |s|
  {
    if s != [] {
      var p := s[..|s| - 1];
      CleanseEmpty(p);
      if NoCommands(s) {
        assert NoCommands(p) by {
          forall k | 0 <= k < |p| ensures !IsCommand(p[k]) {
            assert p[k] == s[k];
          }
        }
      }
      if Cleanse(s) == [] {
        forall k | 0 <= k < |s| ensures !IsCommand(s[k]) {
          if k < |p| {
            assert p[k] == s[k];
          }
        }
      }
    }
  }

  /** The filter works character by character: cleaning a concatenation cleans each part. */
  lemma {:induction false} CleanseAppend(a: string, b: string)
    ensures Cleanse(a + b) == Cleanse(a) + Cleanse(b)
    decreases |b|
  {
    if b == [] {
      assert a + b == a;
    } else {
      var q := b[..|b| - 1];
      assert (a + b)[..|a + b| - 1] == a + q;
      assert (a + b)[|a + b| - 1] == b[|b| - 1];
      CleanseAppend(a, q);
    }
  }

  /** Appending text without commands leaves the cleaned code as it was. */
  lemma CleanseAppendNoise(x: string, y: string)
    requires NoCommands(y)
    ensures Cleanse(x + y) == Cleanse(x)
  {
    CleanseAppend(x, y);
    CleanseEmpty(y);
    assert Cleanse(x) + [] == Cleanse(x);
  }

  /** Appending commands appends them to the cleaned code. */
  lemma CleanseAppendCommands(x: string, y: string)
    requires AllCommands(y)
    ensures Cleanse(x + y) == Cleanse(x) + y
  {
    CleanseAppend(x, y);
    CleanseFixpoint(y);
  }
}
