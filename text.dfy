/**
 * The two string operations the part-1 label relies on: splitting on a
 * character, as Rust's `str::split` does with a `char` pattern, and joining
 * pieces with a delimiter, as `[String]::join` does. `ReplaceChar` is an
 * independent, character-by-character description of what a split followed
 * by a join computes.
 */
module Text {

  /** The pieces of `s` between occurrences of `sep`, in order. An empty `s`
      is one empty piece; a leading, trailing or doubled `sep` yields empty
      pieces, exactly as `str::split` does. */
  function Split(s: string, sep: char): (parts: seq<string>)
    ensures |parts| >= 1
    ensures forall i :: 0 <= i < |parts| ==> sep !in parts[i]
  {
    if s == [] then [""]
    else
      var rest := Split(s[1..], sep);
      if s[0] == sep then [""] + rest
      else [[s[0]] + rest[0]] + rest[1..]
  }

  /** The pieces with `delim` between each two neighbours; no pieces give "". */
  function Join(parts: seq<string>, delim: string): string
  {
    if |parts| == 0 then ""
    else if |parts| == 1 then parts[0]
    else parts[0] + delim + Join(parts[1..], delim)
  }

  /** `s` with every occurrence of the character `c` replaced by `repl`. */
  function ReplaceChar(s: string, c: char, repl: string): string
  {
    if s == [] then [] else (if s[0] == c then repl else [s[0]]) + ReplaceChar(s[1..], c, repl)
  }

  /** Joining the pieces of a split with `repl` is replacing the separator by `repl`. */
  lemma {:induction false} JoinSplit(s: string, c: char, repl: string)
    ensures Join(Split(s, c), repl) == ReplaceChar(s, c, repl)
  {
    if s != [] {
      JoinSplit(s[1..], c, repl);
      var rest := Split(s[1..], c);
      if s[0] == c {
        assert Join([""] + rest, repl) == "" + repl + Join(rest, repl);
      } else if |rest| == 1 {
        assert Join([[s[0]] + rest[0]] + rest[1..], repl) == [s[0]] + rest[0];
      } else {
        var parts := [[s[0]] + rest[0]] + rest[1..];
        assert parts[1..] == rest[1..];
        assert Join(rest, repl) == rest[0] + repl + Join(rest[1..], repl);
        assert Join(parts, repl) == [s[0]] + rest[0] + repl + Join(rest[1..], repl);
      }
    }
  }

  /** Splitting and joining back with the separator itself is the identity. */
  lemma {:induction false} SplitJoinRoundTrip(s: string, c: char)
    ensures Join(Split(s, c), [c]) == s
  {
    JoinSplit(s, c, [c]);
    ReplaceCharIdentity(s, c);
  }

  lemma {:induction false} ReplaceCharIdentity(s: string, c: char)
    ensures ReplaceChar(s, c, [c]) == s
  {
    if s != [] {
      ReplaceCharIdentity(s[1..], c);
      assert s == [s[0]] + s[1..];
    }
  }

  /** Nothing is replaced when the character does not occur. */
  lemma {:induction false} ReplaceCharAbsent(s: string, c: char, repl: string)
    requires c !in s
    ensures ReplaceChar(s, c, repl) == s
  {
    if s != [] {
      assert c !in s[1..] by {
        forall k | 0 <= k < |s| - 1 ensures s[1..][k] != c { assert s[1..][k] == s[k + 1]; }
      }
      ReplaceCharAbsent(s[1..], c, repl);
      assert s == [s[0]] + s[1..];
    }
  }

  /** Every occurrence is gone when the replacement does not contain it. */
  lemma {:induction false} ReplaceCharRemoves(s: string, c: char, repl: string)
    requires c !in repl
    ensures c !in ReplaceChar(s, c, repl)
  {
    if s != [] {
      ReplaceCharRemoves(s[1..], c, repl);
      var head := if s[0] == c then repl else [s[0]];
      assert c !in head;
      var r := head + ReplaceChar(s[1..], c, repl);
      forall k | 0 <= k < |r| ensures r[k] != c {
        if k < |head| { assert r[k] == head[k]; }
        else { assert r[k] == ReplaceChar(s[1..], c, repl)[k - |head|]; }
      }
    }
  }
}
