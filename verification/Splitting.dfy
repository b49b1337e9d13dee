/** Splitting a text at a character and joining the parts, each undoing the other. */
module Splitting {

  /** `text.split(mark)` for a mark of one character. */
  function Split(text: string, mark: char): (parts: seq<string>)
    ensures |parts| > 0
  {
    if text == "" then [""]
    else if text[0] == mark then [""] + Split(text[1..], mark)
    else
      var rest := Split(text[1..], mark);
      [[text[0]] + rest[0]] + rest[1..]
  }

  /** `parts.join(mark)`. */
  function Joined(parts: seq<string>, mark: string): string {
    if parts == [] then ""
    else if |parts| == 1 then parts[0]
    else parts[0] + mark + Joined(parts[1..], mark)
  }

  predicate AllFree(parts: seq<string>, mark: char) {
    forall k | 0 <= k < |parts| :: mark !in parts[k]
  }

  lemma {:induction false} JoiningUndoesSplitting(text: string, mark: char)
    ensures AllFree(Split(text, mark), mark) && Joined(Split(text, mark), [mark]) == text
    decreases |text|
  {
    if text != "" {
      JoiningUndoesSplitting(text[1..], mark);
      var rest := Split(text[1..], mark);
      if text[0] == mark {
        assert ([""] + rest)[1..] == rest;
      } else {
        var head := [text[0]] + rest[0];
        var all := [head] + rest[1..];
        assert all[1..] == rest[1..];
        assert mark !in rest[0];
        forall k | 0 < k < |all| ensures mark !in all[k] {
          assert all[k] == rest[k];
        }
        if |rest| > 1 {
          assert head + [mark] + Joined(rest[1..], [mark]) ==
            [text[0]] + (rest[0] + [mark] + Joined(rest[1..], [mark]));
        }
      }
    }
  }

  lemma {:induction false} SplitOne(part: string, mark: char)
    requires mark !in part
    ensures Split(part, mark) == [part]
    decreases |part|
  {
    if part != "" {
      SplitOne(part[1..], mark);
      assert part == [part[0]] + part[1..];
    }
  }

  lemma {:induction false} SplitFirst(part: string, mark: char, rest: string)
    requires mark !in part
    ensures Split(part + [mark] + rest, mark) == [part] + Split(rest, mark)
    decreases |part|
  {
    var text := part + [mark] + rest;
    if part == "" {
      assert text[1..] == rest;
    } else {
      SplitFirst(part[1..], mark, rest);
      assert text[1..] == part[1..] + [mark] + rest && part == [part[0]] + part[1..];
    }
  }

  lemma {:induction false} SplittingUndoesJoining(parts: seq<string>, mark: char)
    requires parts != [] && AllFree(parts, mark)
    ensures Split(Joined(parts, [mark]), mark) == parts
    decreases |parts|
  {
    if |parts| == 1 {
      SplitOne(parts[0], mark);
    } else {
      var first, rest := parts[0], parts[1..];
      SplittingUndoesJoining(rest, mark);
      SplitFirst(first, mark, Joined(rest, [mark]));
      assert Joined(parts, [mark]) == first + [mark] + Joined(rest, [mark]);
      assert parts == [first] + rest;
    }
  }
}
