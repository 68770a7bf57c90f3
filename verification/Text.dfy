/** Strings as sequences of characters: splitting, joining and searching. */
module Text {

  datatype Option<+T> = None | Some(value: T)

  /** The pieces of `s` between the occurrences of `sep`, as `String.prototype.split` returns them. */
  function Split(s: string, sep: char): (pieces: seq<string>)
    ensures |pieces| > 0
    ensures forall piece | piece in pieces :: sep !in piece
  {
    if s == "" then [""]
    else
      var rest := Split(s[1..], sep);
      if s[0] == sep then [""] + rest else [[s[0]] + rest[0]] + rest[1..]
  }

  /** The pieces with `sep` between them, as `Array.prototype.join`. */
  function Join(pieces: seq<string>, sep: char): string {
    if |pieces| == 0 then ""
    else if |pieces| == 1 then pieces[0]
    else pieces[0] + [sep] + Join(pieces[1..], sep)
  }

  /** The largest index of `c` in `s`, or -1. */
  function LastIndexOf(s: string, c: char): (i: int)
    ensures -1 <= i < |s|
    ensures i >= 0 ==> s[i] == c
    ensures forall k | i < k < |s| :: s[k] != c
  {
    if s == "" then -1
    else if s[|s| - 1] == c then |s| - 1
    else
      var front := s[..|s| - 1];
      var i := LastIndexOf(front, c);
      assert forall k | i < k < |front| :: s[k] == front[k];
      i
  }

  /** Whether `s` ends with the text `suffix`. */
  predicate EndsWith(s: string, suffix: string) {
    |suffix| <= |s| && s[|s| - |suffix|..] == suffix
  }

  lemma {:induction false} SplitSeparatorFree(s: string, sep: char)
    requires sep !in s
    ensures Split(s, sep) == [s]
  {
    if s != "" {
      SplitSeparatorFree(s[1..], sep);
      assert [s[0]] + s[1..] == s;
    }
  }

  /** One step of splitting. */
  lemma SplitStep(s: string, sep: char)
    requires s != ""
    ensures var rest := Split(s[1..], sep);
      Split(s, sep) == if s[0] == sep then [""] + rest else [[s[0]] + rest[0]] + rest[1..]
  {
  }

  lemma {:induction false} SplitAppend(a: string, b: string, sep: char)
    ensures Split(a + [sep] + b, sep) == Split(a, sep) + Split(b, sep)
  {
    hide Split;
    var whole := a + [sep] + b;
    SplitStep(whole, sep);
    if a == "" {
      assert whole[1..] == b;
      SplitSeparatorFree(a, sep);
    } else {
      assert whole[1..] == a[1..] + [sep] + b;
      SplitAppend(a[1..], b, sep);
      SplitStep(a, sep);
      var front, back := Split(a[1..], sep), Split(b, sep);
      var rest := Split(whole[1..], sep);
      assert rest == front + back;
      if a[0] == sep {
        assert [""] + rest == ([""] + front) + back;
      } else {
        assert rest[0] == front[0] && rest[1..] == front[1..] + back;
      }
    }
  }

  /** Splitting undoes joining when no piece holds the separator. */
  lemma {:induction false} SplitJoin(pieces: seq<string>, sep: char)
    requires pieces != []
    requires forall piece | piece in pieces :: sep !in piece
    ensures Split(Join(pieces, sep), sep) == pieces
  {
    SplitSeparatorFree(pieces[0], sep);
    if |pieces| > 1 {
      SplitJoin(pieces[1..], sep);
      SplitAppend(pieces[0], Join(pieces[1..], sep), sep);
    }
  }

  /** Joining undoes splitting. */
  lemma {:induction false} JoinSplit(s: string, sep: char)
    ensures Join(Split(s, sep), sep) == s
  {
    if s != "" {
      JoinSplit(s[1..], sep);
      var rest := Split(s[1..], sep);
      if s[0] == sep {
        assert ([""] + rest)[1..] == rest;
      } else if |rest| > 1 {
        assert ([[s[0]] + rest[0]] + rest[1..])[1..] == rest[1..];
      }
    }
  }

  /** The first piece of `s` is empty when `s` starts with the separator, the last one when it ends with it. */
  lemma {:induction false} SplitEnds(s: string, sep: char)
    requires s != ""
    ensures s[0] == sep ==> Split(s, sep)[0] == ""
    ensures s[|s| - 1] == sep <==> Split(s, sep)[|Split(s, sep)| - 1] == ""
  {
    hide Split;
    SplitStep(s, sep);
    if |s| > 1 {
      SplitEnds(s[1..], sep);
      JoinSplit(s[1..], sep);
    } else {
      assert s[1..] == "";
      SplitSeparatorFree("", sep);
    }
  }

  lemma JoinOne(piece: string, sep: char)
    ensures Join([piece], sep) == piece
  {
  }

  /** Joining one more piece in front. */
  lemma JoinStep(piece: string, rest: seq<string>, sep: char)
    requires rest != []
    ensures Join([piece] + rest, sep) == piece + [sep] + Join(rest, sep)
  {
    assert ([piece] + rest)[1..] == rest;
  }

  /** Joining pieces of which the first is one character longer. */
  lemma JoinLonger(c: char, rest: seq<string>, sep: char)
    requires rest != []
    ensures Join([[c] + rest[0]] + rest[1..], sep) == [c] + Join(rest, sep)
  {
    if |rest| > 1 {
      JoinStep([c] + rest[0], rest[1..], sep);
      JoinStep(rest[0], rest[1..], sep);
      assert [rest[0]] + rest[1..] == rest;
    } else {
      assert [[c] + rest[0]] + rest[1..] == [[c] + rest[0]];
    }
  }

  lemma LastIndexOfUnique(s: string, c: char, i: int)
    requires 0 <= i < |s| && s[i] == c
    requires forall k | i < k < |s| :: s[k] != c
    ensures LastIndexOf(s, c) == i
  {
  }
}
