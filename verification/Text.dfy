/** Splitting and joining text at a separator, the way the browser's and the server's libraries do it. */
module Text {

  /** The pieces of s between occurrences of sep; there is always at least one. */
  function Split(s: string, sep: char): (pieces: seq<string>)
    ensures |pieces| > 0
    ensures forall p | p in pieces :: sep !in p
    ensures Join(pieces, sep) == s
  {
    if s == "" then
      [""]
    else
      var rest := Split(s[1..], sep);
      if s[0] == sep then
        assert Join([""] + rest, sep) == [sep] + Join(rest, sep) by {
          assert ([""] + rest)[1..] == rest;
        }
        [""] + rest
      else
        assert Join([[s[0]] + rest[0]] + rest[1..], sep) == [s[0]] + Join(rest, sep) by {
          assert ([[s[0]] + rest[0]] + rest[1..])[1..] == rest[1..];
        }
        [[s[0]] + rest[0]] + rest[1..]
  }

  function Join(pieces: seq<string>, sep: char): string {
    if |pieces| == 0 then ""
    else if |pieces| == 1 then pieces[0]
    else pieces[0] + [sep] + Join(pieces[1..], sep)
  }

  /** Splitting undoes joining when no piece holds the separator. */
  lemma {:induction false} SplitOfJoin(pieces: seq<string>, sep: char)
    requires |pieces| > 0
    requires forall p | p in pieces :: sep !in p
    ensures Split(Join(pieces, sep), sep) == pieces
    decreases |pieces|, |pieces[0]|
  {
    if |pieces[0]| > 0 {
      var head, tail := pieces[0], pieces[1..];
      var shorter := [head[1..]] + tail;
      assert shorter[1..] == tail;
      forall p | p in shorter ensures sep !in p {
        assert p in tail ==> p in pieces;
        assert sep !in head;
      }
      SplitOfJoin(shorter, sep);
      assert Join(pieces, sep) == [head[0]] + Join(shorter, sep);
      assert head[0] in head;
      assert head == [head[0]] + head[1..];
      assert pieces == [[head[0]] + shorter[0]] + shorter[1..];
    } else if |pieces| > 1 {
      SplitOfJoin(pieces[1..], sep);
      assert Join(pieces, sep) == [sep] + Join(pieces[1..], sep);
      assert pieces == [""] + pieces[1..];
    }
  }
}
