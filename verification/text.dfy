/** String operations the middleware takes from the JavaScript runtime:
    `String.prototype.toLowerCase`, `String.prototype.split` with a
    one-character separator, and `Array.prototype.join`. */
module Text {

  predicate IsUpper(c: char)
  {
    'A' <= c <= 'Z'
  }

  /** Lower-casing of one character; only the ASCII letters have a mapping here. */
  function LowerChar(c: char): (d: char)
    ensures !IsUpper(d)
    ensures IsUpper(c) ==> d as int == c as int + 32
    ensures !IsUpper(c) ==> d == c
  {
    if IsUpper(c) then (c as int + 32) as char else c
  }

  /** `s.toLowerCase()`, character by character. */
  function ToLower(s: string): (r: string)
    ensures |r| == |s|
    ensures forall i :: 0 <= i < |r| ==> !IsUpper(r[i])
    ensures forall i :: 0 <= i < |s| && !IsUpper(s[i]) ==> r[i] == s[i]
    ensures forall i :: 0 <= i < |s| && IsUpper(s[i]) ==> r[i] as int == s[i] as int + 32
  {
    seq(|s|, i requires 0 <= i < |s| => LowerChar(s[i]))
  }

  /** `parts.join([sep])`: the parts with one separator between neighbours. */
  function Join(parts: seq<string>, sep: char): (r: string)
    ensures |parts| >= 1 ==> parts[0] <= r
    ensures |parts| >= 2 ==> |r| > |parts[0]| && r[|parts[0]|] == sep
  {
    if |parts| == 0 then ""
    else if |parts| == 1 then parts[0]
    else parts[0] + [sep] + Join(parts[1..], sep)
  }

  /** `s.split([sep])`: the maximal separator-free pieces of `s`, in order.
      There is always at least one piece: splitting "" gives [""]. */
  function Split(s: string, sep: char): (parts: seq<string>)
    ensures |parts| >= 1
    ensures forall i :: 0 <= i < |parts| ==> sep !in parts[i]
    ensures Join(parts, sep) == s
  {
    if |s| == 0 then [""]
    else
      var rest := Split(s[1..], sep);
      if s[0] == sep then
        [""] + rest
      else
        [[s[0]] + rest[0]] + rest[1..]
  }

  /** Splitting undoes joining when no part holds the separator. */
  lemma {:induction false} SplitJoin(parts: seq<string>, sep: char)
    requires |parts| >= 1
    requires forall i :: 0 <= i < |parts| ==> sep !in parts[i]
    ensures Split(Join(parts, sep), sep) == parts
    decreases |parts|, |parts[0]|
  {
    if |parts| == 1 {
      SplitFree(parts[0], sep);
    } else if |parts[0]| == 0 {
      var tail := parts[1..];
      SplitJoin(tail, sep);
      assert Join(parts, sep) == [sep] + Join(tail, sep);
      assert ([sep] + Join(tail, sep))[1..] == Join(tail, sep);
    } else {
      var c := parts[0][0];
      var shorter := [parts[0][1..]] + parts[1..];
      assert sep !in shorter[0];
      forall i | 0 <= i < |shorter|
        ensures sep !in shorter[i]
      {
        if i > 0 {
          assert shorter[i] == parts[i];
        }
      }
      SplitJoin(shorter, sep);
      assert shorter[1..] == parts[1..];
      assert Join(parts, sep) == [c] + Join(shorter, sep);
      assert ([c] + Join(shorter, sep))[1..] == Join(shorter, sep);
      assert [c] + shorter[0] == parts[0];
    }
  }

  /** A separator-free string splits into itself. */
  lemma {:induction false} SplitFree(s: string, sep: char)
    requires sep !in s
    ensures Split(s, sep) == [s]
    decreases |s|
  {
    if |s| > 0 {
      assert sep !in s[1..] by {
        forall i | 0 <= i < |s[1..]|
          ensures s[1..][i] != sep
        {
          assert s[1..][i] == s[i + 1];
        }
      }
      SplitFree(s[1..], sep);
      assert [s[0]] + s[1..] == s;
    }
  }

  /** Two separator-free texts joined with the separator split back into
      exactly those two texts. */
  lemma SplitPair(a: string, b: string, sep: char)
    requires sep !in a && sep !in b
    ensures Split(a + [sep] + b, sep) == [a, b]
  {
    var parts := [a, b];
    assert Join(parts, sep) == a + [sep] + b by {
      assert parts[1..] == [b];
    }
    SplitJoin(parts, sep);
  }

  /** Whatever follows the second piece does not change the first two pieces. */
  lemma SplitPrefix(a: string, b: string, rest: string, sep: char)
    requires sep !in a && sep !in b
    ensures var parts := Split(a + [sep] + b + [sep] + rest, sep);
      |parts| >= 3 && parts[0] == a && parts[1] == b
  {
    var tail := Split(rest, sep);
    var parts := [a, b] + tail;
    forall i | 0 <= i < |parts|
      ensures sep !in parts[i]
    {
      if i >= 2 {
        assert parts[i] == tail[i - 2];
      }
    }
    assert Join(parts, sep) == a + [sep] + b + [sep] + rest by {
      assert parts[1..] == [b] + tail;
      assert parts[1..][1..] == tail;
      assert Join(parts[1..], sep) == b + [sep] + Join(tail, sep);
    }
    SplitJoin(parts, sep);
  }

  /** Lower-casing is idempotent. */
  lemma ToLowerIdempotent(s: string)
    ensures ToLower(ToLower(s)) == ToLower(s)
  {
  }
}
