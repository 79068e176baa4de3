/** Splitting and joining text at a separator, and ASCII case folding. */
module Text {

  /** The pieces of `s` between the separators; always at least one. */
  function Split(s: string, sep: char): (parts: seq<string>)
    ensures parts != [] && forall i | 0 <= i < |parts| :: sep !in parts[i]
  {
    if s == [] then [""]
    else
      var rest := Split(s[1..], sep);
      if s[0] == sep then [""] + rest else [[s[0]] + rest[0]] + rest[1..]
  }

  function Join(l: seq<string>, sep: char): string {
    if l == [] then "" else if |l| == 1 then l[0] else l[0] + [sep] + Join(l[1..], sep)
  }

  lemma {:induction false} SplitFirst(head: string, tail: string, sep: char)
    requires sep !in head
    ensures Split(head + [sep] + tail, sep) == [head] + Split(tail, sep)
    ensures Split(head, sep) == [head]
    decreases |head|
  {
    var s := head + [sep] + tail;
    if head == [] {
      assert s[1..] == tail;
    } else {
      assert s[1..] == head[1..] + [sep] + tail;
      SplitFirst(head[1..], tail, sep);
      assert [head[0]] + head[1..] == head;
    }
  }

  /** Splitting undoes joining, for pieces without the separator. */
  lemma {:induction false} SplitOfJoin(l: seq<string>, sep: char)
    requires l != [] && forall i | 0 <= i < |l| :: sep !in l[i]
    ensures Split(Join(l, sep), sep) == l
    decreases |l|
  {
    if |l| == 1 {
      SplitFirst(l[0], "", sep);
    } else {
      SplitOfJoin(l[1..], sep);
      SplitFirst(l[0], Join(l[1..], sep), sep);
    }
  }

  /** The first piece begins the text, and is all of it when it is the only one. */
  lemma {:induction false} SplitBegins(s: string, sep: char)
    ensures var parts := Split(s, sep);
            parts[0] <= s && (|parts| == 1 ==> parts[0] == s)
  {
    if s != [] && s[0] != sep {
      SplitBegins(s[1..], sep);
      assert [s[0]] + s[1..] == s;
    }
  }

  function LowerChar(c: char): char {
    if 'A' <= c <= 'Z' then (c as int + 32) as char else c
  }

  function ToLower(s: string): string {
    seq(|s|, i requires 0 <= i < |s| => LowerChar(s[i]))
  }
}
