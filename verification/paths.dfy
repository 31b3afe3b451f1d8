/** Path strings: a node's path components joined with dots, and the split
    that takes a path string apart again. */
module Paths {

  /** `'.'.join(path)`: the empty path is the empty string. */
  function MakePathStr(path: seq<string>): string {
    if path == [] then ""
    else if |path| == 1 then path[0]
    else path[0] + "." + MakePathStr(path[1..])
  }

  /** `s.split('.')`: the pieces between dots; never empty, and the empty
      string splits into one empty piece. */
  function Split(s: string): (r: seq<string>)
    ensures |r| >= 1
  {
    if s == [] then [""]
    else if s[0] == '.' then [""] + Split(s[1..])
    else
      var rest := Split(s[1..]);
      [[s[0]] + rest[0]] + rest[1..]
  }

  predicate NoDot(c: string) {
    '.' !in c
  }

  /** Joining the pieces of a split gives back the string. */
  lemma {:induction false} JoinSplit(s: string)
    ensures MakePathStr(Split(s)) == s
  {
    if s != [] {
      var rest := Split(s[1..]);
      JoinSplit(s[1..]);
      if s[0] == '.' {
        assert Split(s)[1..] == rest;
        assert s == [s[0]] + s[1..];
      } else if |rest| == 1 {
        assert s == [s[0]] + rest[0];
      } else {
        var r := Split(s);
        assert r[0] == [s[0]] + rest[0] && r[1..] == rest[1..];
        assert s == [s[0]] + (rest[0] + "." + MakePathStr(rest[1..]));
      }
    }
  }

  /** No piece of a split contains a dot. */
  lemma {:induction false} SplitNoDot(s: string)
    ensures forall i :: 0 <= i < |Split(s)| ==> NoDot(Split(s)[i])
  {
    if s != [] {
      SplitNoDot(s[1..]);
      var rest := Split(s[1..]);
      if s[0] != '.' {
        assert NoDot(rest[0]);
        var r := Split(s);
        forall i | 0 <= i < |r| ensures NoDot(r[i]) {
          if i > 0 {
            assert r[i] == rest[i];
          }
        }
      }
    }
  }

  lemma {:induction false} SplitOfDotless(c: string)
    requires NoDot(c)
    ensures Split(c) == [c]
  {
    if c != [] {
      assert c[0] in c && c == [c[0]] + c[1..];
      assert forall x :: x in c[1..] ==> x in c;
      SplitOfDotless(c[1..]);
    }
  }

  lemma {:induction false} SplitAtDot(a: string, b: string)
    requires NoDot(a)
    ensures Split(a + "." + b) == [a] + Split(b)
  {
    if a == [] {
      assert a + "." + b == ['.'] + b;
    } else {
      assert (a + "." + b)[1..] == a[1..] + "." + b;
      SplitAtDot(a[1..], b);
      assert a == [a[0]] + a[1..];
    }
  }

  /** Splitting a joined path gives back its components when there is at
      least one and none contains a dot. */
  lemma {:induction false} SplitJoin(path: seq<string>)
    requires path != []
    requires forall i :: 0 <= i < |path| ==> NoDot(path[i])
    ensures Split(MakePathStr(path)) == path
  {
    if |path| == 1 {
      SplitOfDotless(path[0]);
    } else {
      SplitAtDot(path[0], MakePathStr(path[1..]));
      SplitJoin(path[1..]);
    }
  }
}
