/** Splitting the leading bracketed blocks off a Notification Center message. */
module TagExtraction {
  import opened Text

  /** `Extract` indexes `annotation[0]` unguarded, so it can panic. */
  datatype Outcome = Panicked | Extracted(rest: string, tags: seq<string>)

  // ----- The printer and the grammar

  function Block(tag: string): string { "[" + tag + "] " }

  function Render(tags: seq<string>): string {
    if tags == [] then "" else Block(tags[0]) + Render(tags[1..])
  }

  predicate Clean(tag: string) { !Occurs(tag, "] ") }

  predicate OpensBlock(s: string) { s != "" && s[0] == '[' && Occurs(s[1..], "] ") }

  predicate AllClean(tags: seq<string>) { forall i | 0 <= i < |tags| :: Clean(tags[i]) }

  /** `s` is read as rendered tags and a nonempty remainder that opens no further block. */
  predicate Decomposes(s: string, tags: seq<string>, rest: string) {
    s == Render(tags) + rest && AllClean(tags) && rest != "" && !OpensBlock(rest)
  }

  /** What `Extract` promises, without saying how it gets there. */
  ghost predicate Promised(s: string, o: Outcome) {
    match o
    case Extracted(rest, tags) => Decomposes(s, tags, rest)
    case Panicked => exists tags :: AllClean(tags) && s == Render(tags)
  }

  // ----- The parser

  function Prefixed(tag: string, o: Outcome): Outcome {
    match o
    case Panicked => Panicked
    case Extracted(rest, tags) => Extracted(rest, [tag] + tags)
  }

  function Parse(s: string): (o: Outcome) {
    if s == "" then Panicked
    else if s[0] != '[' then Extracted(s, [])
    else
      var close := Index(s[1..], "] ");
      if close == -1 then Extracted(s, []) else Prefixed(s[1..][..close], Parse(s[1..][close + 2..]))
  }

  /** The first "] " after a clean tag is the one that closes its block. */
  lemma FirstClose(tag: string, rest: string)
    requires Clean(tag)
    ensures Index(tag + "] " + rest, "] ") == |tag|
  {
    var s := tag + "] " + rest;
    OccursAfter(tag, "] ", rest);
    forall i: int | 0 <= i < |tag| ensures !OccursAt(s, "] ", i) {
      if i == |tag| - 1 {
        DiffersAt(s, "] ", i, 1);
      } else {
        assert !OccursAt(tag, "] ", i);
        TwoChars(tag, i);
        TwoChars(s, i);
      }
    }
  }

  lemma TwoChars(s: string, i: int)
    ensures OccursAt(s, "] ", i) <==> 0 <= i < |s| - 1 && s[i] == ']' && s[i + 1] == ' '
  {
    if 0 <= i < |s| - 1 {
      assert s[i..] == [s[i], s[i + 1]] + s[i + 2..];
    }
  }

  lemma BlockParts(tag: string, s: string)
    ensures var body := (Block(tag) + s)[1..];
            body == tag + "] " + s && body[..|tag|] == tag && body[|tag| + 2..] == s
  {
    assert Block(tag) + s == "[" + (tag + "] " + s);
  }

  lemma ParseOpen(s: string)
    requires s != "" && s[0] == '['
    ensures var close := Index(s[1..], "] ");
            Parse(s) == if close == -1 then Extracted(s, [])
                        else Prefixed(s[1..][..close], Parse(s[1..][close + 2..]))
  {
  }

  lemma ParseBlock(tag: string, s: string)
    requires Clean(tag)
    ensures Parse(Block(tag) + s) == Prefixed(tag, Parse(s))
  {
    FirstClose(tag, s);
    BlockParts(tag, s);
    ParseOpen(Block(tag) + s);
  }

  /** The leftmost close leaves a clean tag in front of it. */
  lemma CleanBeforeClose(s: string, close: nat)
    requires Index(s, "] ") == close
    ensures Clean(s[..close]) && s == s[..close] + "] " + s[close + 2..]
  {
    OccursSplit(s, "] ", close);
    forall i: int ensures !OccursAt(s[..close], "] ", i) {
      assert !OccursAt(s, "] ", i) || i >= close;
      TwoChars(s, i);
      TwoChars(s[..close], i);
    }
  }

  /** Parsing is sound: rendering what was extracted gives the input back. */
  lemma {:induction false} ParseSound(s: string)
    ensures Promised(s, Parse(s))
    decreases |s|
  {
    if s == "" {
      assert AllClean([]) && s == Render([]);
    } else if s[0] != '[' || Index(s[1..], "] ") == -1 {
      assert s == Render([]) + s;
    } else {
      var close := Index(s[1..], "] ");
      var tag, tail := s[1..][..close], s[1..][close + 2..];
      SplitBlock(s, close);
      ParseSound(tail);
      PromisedBlock(tag, tail, Parse(tail));
    }
  }

  lemma PromisedBlock(tag: string, s: string, o: Outcome)
    requires Clean(tag) && Promised(s, o)
    ensures Promised(Block(tag) + s, Prefixed(tag, o))
  {
    match o
    case Extracted(rest, tags) =>
      RenderCons(tag, tags);
      assert Block(tag) + s == Render([tag] + tags) + rest;
    case Panicked =>
      var tags :| AllClean(tags) && s == Render(tags);
      RenderCons(tag, tags);
  }

  lemma SplitBlock(s: string, close: nat)
    requires s != "" && s[0] == '[' && Index(s[1..], "] ") == close
    ensures Clean(s[1..][..close]) && s == Block(s[1..][..close]) + s[1..][close + 2..]
  {
    CleanBeforeClose(s[1..], close);
    assert s == "[" + s[1..];
  }

  lemma RenderCons(tag: string, tags: seq<string>)
    ensures Render([tag] + tags) == Block(tag) + Render(tags)
    ensures Clean(tag) && AllClean(tags) ==> AllClean([tag] + tags)
  {
    assert ([tag] + tags)[1..] == tags;
  }

  lemma ParseResidue(rest: string)
    requires rest != "" && !OpensBlock(rest)
    ensures Parse(rest) == Extracted(rest, [])
  {
    assert rest[0] == '[' ==> Index(rest[1..], "] ") == -1;
  }

  /** Parsing is complete: whatever meets the promise is what the parser returns. */
  lemma {:induction false} ParseComplete(tags: seq<string>, rest: string)
    requires AllClean(tags) && (rest == "" || !OpensBlock(rest))
    ensures Parse(Render(tags) + rest) == if rest == "" then Panicked else Extracted(rest, tags)
    decreases |tags|
  {
    if tags == [] {
      assert Render(tags) + rest == rest;
      if rest != "" {
        ParseResidue(rest);
      }
    } else {
      var tag, more := tags[0], tags[1..];
      assert Render(tags) == Block(tag) + Render(more);
      assert Render(tags) + rest == Block(tag) + (Render(more) + rest);
      assert AllClean(more) && Clean(tag) && tags == [tag] + more;
      ParseComplete(more, rest);
      ParseBlock(tag, Render(more) + rest);
    }
  }

  /** `Extract` and the printer are inverse both ways; in particular a text has one reading only,
      and the unguarded index fails exactly on texts made wholly of complete blocks. */
  lemma ParseIffPromised(s: string, o: Outcome)
    ensures Promised(s, o) <==> o == Parse(s)
  {
    ParseSound(s);
    if Promised(s, o) {
      match o
      case Extracted(rest, tags) => ParseComplete(tags, rest);
      case Panicked =>
        var tags :| AllClean(tags) && s == Render(tags);
        assert s == Render(tags) + "";
        ParseComplete(tags, "");
    }
  }

  /** The loop of `Extract`. */
  method Extract(annotation: string) returns (o: Outcome)
    ensures o == Parse(annotation)
    ensures Promised(annotation, o)
  {
    var rest, tags := annotation, [];
    while true
      invariant Render(tags) + rest == annotation && AllClean(tags)
      decreases |rest|
    {
      if rest == "" {
        ParseComplete(tags, rest);
        ParseSound(annotation);
        return Panicked;
      }
      if rest[0] != '[' {
        break;
      }
      var endIdx := Index(rest[1..], "] ");
      if endIdx == -1 {
        break;
      }
      MoveBlock(tags, rest, endIdx);
      endIdx := endIdx + 1;
      tags := tags + [rest[1..endIdx]];
      rest := rest[endIdx + 2..];
    }
    ParseComplete(tags, rest);
    ParseSound(annotation);
    return Extracted(rest, tags);
  }

  lemma BlockSlices(rest: string, close: nat)
    requires rest != "" && 1 + close + 2 <= |rest|
    requires rest == Block(rest[1..][..close]) + rest[1..][close + 2..]
    ensures rest == Block(rest[1..1 + close]) + rest[1 + close + 2..]
    ensures rest[1..][..close] == rest[1..1 + close]
  {
    assert rest[1..][..close] == rest[1..1 + close] && rest[1..][close + 2..] == rest[1 + close + 2..];
  }

  lemma MoveBlock(tags: seq<string>, rest: string, close: nat)
    requires AllClean(tags) && rest != "" && rest[0] == '[' && Index(rest[1..], "] ") == close
    ensures 1 + close + 2 <= |rest|
    ensures AllClean(tags + [rest[1..1 + close]])
    ensures Render(tags + [rest[1..1 + close]]) + rest[1 + close + 2..] == Render(tags) + rest
  {
    SplitBlock(rest, close);
    BlockSlices(rest, close);
    RenderMove(tags, rest[1..1 + close], rest[1 + close + 2..]);
  }

  lemma RenderMove(tags: seq<string>, tag: string, tail: string)
    ensures Render(tags + [tag]) + tail == Render(tags) + (Block(tag) + tail)
  {
    RenderSnoc(tags, tag);
    assert (Render(tags) + Block(tag)) + tail == Render(tags) + (Block(tag) + tail);
  }

  lemma {:induction false} RenderSnoc(tags: seq<string>, tag: string)
    ensures Render(tags + [tag]) == Render(tags) + Block(tag)
  {
    if tags == [] {
      assert [tag][1..] == [];
    } else {
      RenderSnoc(tags[1..], tag);
      assert (tags + [tag])[1..] == tags[1..] + [tag];
    }
  }
}
