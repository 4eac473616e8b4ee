/** Splitting a text into lines and joining them again. */
module Lines {
  import opened Common

  /** text.split("\n") */
  function Split(t: string): (r: seq<string>)
    ensures |r| >= 1
  {
    if t == "" then [""]
    else
      var rest := Split(t[1..]);
      if t[0] == '\n' then [""] + rest else [[t[0]] + rest[0]] + rest[1..]
  }

  /** lines.join("\n") */
  function Join(lines: seq<string>): string {
    if lines == [] then ""
    else if |lines| == 1 then lines[0]
    else lines[0] + "\n" + Join(lines[1..])
  }

  lemma {:induction false} JoinSplit(t: string)
    ensures Join(Split(t)) == t
  {
    if t != "" {
      JoinSplit(t[1..]);
      var rest := Split(t[1..]);
      if t[0] == '\n' {
        assert ([""] + rest)[1..] == rest;
      } else {
        assert ([[t[0]] + rest[0]] + rest[1..])[1..] == rest[1..];
      }
    }
  }

  lemma SplitHead(t: string)
    requires t != ""
    ensures var rest := Split(t[1..]);
      Split(t) == if t[0] == '\n' then [""] + rest else [[t[0]] + rest[0]] + rest[1..]
  {
  }

  lemma GlueEmpty(rest: seq<string>, more: seq<string>)
    ensures [""] + (rest + more) == ([""] + rest) + more
  {
  }

  lemma GlueFirst(c: char, rest: seq<string>, more: seq<string>)
    requires rest != []
    ensures [[c] + (rest + more)[0]] + (rest + more)[1..] == ([[c] + rest[0]] + rest[1..]) + more
  {
  }

  /** A newline separates the lines of what stands before and after it. */
  lemma {:induction false} SplitAtNewline(a: string, b: string)
    ensures Split(a + "\n" + b) == Split(a) + Split(b)
  {
    var t := a + "\n" + b;
    SplitHead(t);
    if a == "" {
      assert Split(a) == [""];
      assert t[1..] == b;
    } else {
      hide Split;
      SplitHead(a);
      SplitAtNewline(a[1..], b);
      assert t[1..] == a[1..] + "\n" + b && t[0] == a[0];
      if a[0] == '\n' {
        GlueEmpty(Split(a[1..]), Split(b));
      } else {
        GlueFirst(a[0], Split(a[1..]), Split(b));
      }
    }
  }

  lemma {:induction false} SplitLine(line: string)
    requires '\n' !in line
    ensures Split(line) == [line]
  {
    if line != "" {
      SplitLine(line[1..]);
      assert line == [line[0]] + line[1..];
    }
  }

  lemma {:induction false} SplitHasNoNewline(t: string, k: nat)
    requires k < |Split(t)|
    ensures '\n' !in Split(t)[k]
    decreases |t|
  {
    if t != "" {
      var rest := Split(t[1..]);
      if t[0] == '\n' {
        if k > 0 {
          SplitHasNoNewline(t[1..], k - 1);
        }
      } else {
        SplitHasNoNewline(t[1..], k);
        assert k > 0 ==> Split(t)[k] == rest[k];
      }
    }
  }

  /** The lines determine the text, and any lines without newlines are those of their join. */
  lemma {:induction false} SplitJoin(lines: seq<string>)
    requires lines != [] && forall k :: 0 <= k < |lines| ==> '\n' !in lines[k]
    ensures Split(Join(lines)) == lines
  {
    SplitLine(lines[0]);
    if |lines| > 1 {
      SplitJoin(lines[1..]);
      SplitAtNewline(lines[0], Join(lines[1..]));
    }
  }
}
