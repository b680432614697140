/** The image-pull dialog of the front end: a text stream of newline-delimited JSON arrives in arbitrary
    chunks, is cut into lines and each non-blank line is handed to the JSON parser. */
module PullStream {
  import opened Common

  /** `text.split('\n')`: the pieces between newlines, at least one. */
  function Split(text: string): (parts: seq<string>)
    ensures |parts| >= 1
  {
    if text == "" then [""]
    else
      Prepend(text[0], Split(text[1..]))
  }

  /** The newline-terminated lines of a text, and the unterminated remainder. */
  function Lines(text: string): seq<string> { Split(text)[..|Split(text)| - 1] }

  function Tail(text: string): string { Split(text)[|Split(text)| - 1] }

  /** The text that a list of terminated lines came from. */
  function Unlines(lines: seq<string>): string {
    if lines == [] then "" else lines[0] + "\n" + Unlines(lines[1..])
  }

  function Flatten(chunks: seq<string>): string {
    if chunks == [] then "" else Flatten(chunks[..|chunks| - 1]) + chunks[|chunks| - 1]
  }

  /** `!line.trim()`: only characters that JavaScript trims. */
  predicate Blank(line: string) { forall i :: 0 <= i < |line| ==> Space(line[i]) }

  predicate Space(c: char) {
    || '\t' <= c <= '\r' || c == ' ' || c == '\U{A0}' || c == '\U{1680}' || '\U{2000}' <= c <= '\U{200A}'
    || c == '\U{2028}' || c == '\U{2029}' || c == '\U{202F}' || c == '\U{205F}' || c == '\U{3000}' || c == '\U{FEFF}'
  }

  function NonBlank(lines: seq<string>): seq<string> { Filter((l: string) => !Blank(l), lines) }

  /** What parsing a line tells the dialog: `done` events carry the verdict, any other event may carry an error. */
  datatype Event = Done(ok: bool) | Progress(error: bool)

  /** The lines the parser sees: it stops after the first line it rejects. */
  function Handed(parse: string -> Option<Event>, lines: seq<string>): seq<string> {
    if lines == [] then []
    else if parse(lines[0]).None? then [lines[0]]
    else [lines[0]] + Handed(parse, lines[1..])
  }

  /** Some(pullOk) at the end of the stream, None when the parser threw. */
  function Verdict(parse: string -> Option<Event>, lines: seq<string>, ok: bool): Option<bool> {
    if lines == [] then Some(ok)
    else match parse(lines[0])
      case None => None
      case Some(Done(o)) => Verdict(parse, lines[1..], o)
      case Some(Progress(e)) => Verdict(parse, lines[1..], ok && !e)
  }

  // ---- cutting a text into lines ----

  predicate NoNewline(s: string) { '\n' !in s }

  lemma {:induction false} SplitPieces(text: string)
    ensures forall i :: 0 <= i < |Split(text)| ==> NoNewline(Split(text)[i])
  {
    if text != "" { SplitPieces(text[1..]); }
  }

  lemma {:induction false} UnlinesSplit(text: string)
    ensures Unlines(Lines(text)) + Tail(text) == text
  {
    if text != "" {
      UnlinesSplit(text[1..]);
      var rest := Split(text[1..]);
      if text[0] == '\n' {
        assert Lines(text) == [""] + Lines(text[1..]);
        assert Lines(text)[1..] == Lines(text[1..]);
        assert text == "\n" + text[1..];
      } else if |rest| == 1 {
        assert text == [text[0]] + text[1..];
      } else {
        assert Lines(text) == [[text[0]] + rest[0]] + Lines(text[1..])[1..];
        assert Lines(text)[1..] == Lines(text[1..])[1..];
        assert text == [text[0]] + text[1..];
      }
    }
  }

  /** Splitting after appending only splits the old remainder together with the new text. */
  lemma {:induction false} SplitAppend(t: string, c: string)
    ensures Split(t + c) == Lines(t) + Split(Tail(t) + c)
  {
    if t == "" {
      assert t + c == c;
    } else {
      SplitAppend(t[1..], c);
      assert Split(t + c) == Prepend(t[0], Split(t[1..] + c)) by {
        assert (t + c)[1..] == t[1..] + c && (t + c)[0] == t[0];
      }
      SplitAppendStep(t, c);
    }
  }

  lemma SplitAppendStep(t: string, c: string)
    requires t != ""
    ensures Prepend(t[0], Lines(t[1..]) + Split(Tail(t[1..]) + c)) == Lines(t) + Split(Tail(t) + c)
  {
    var a, end := Lines(t[1..]), Split(Tail(t[1..]) + c);
    LinesCons(t);
    SplitStep(t[0], a, end, a + end);
    if t[0] != '\n' && a == [] {
      var u := Tail(t) + c;
      assert u[0] == t[0] && u[1..] == Tail(t[1..]) + c;
      assert Lines(t) + Split(u) == Split(u);
    }
  }

  lemma LinesCons(t: string)
    requires t != ""
    ensures var a := Lines(t[1..]);
            if t[0] == '\n' then Lines(t) == [""] + a && Tail(t) == Tail(t[1..])
            else if a == [] then Lines(t) == [] && Tail(t) == [t[0]] + Tail(t[1..])
            else Lines(t) == [[t[0]] + a[0]] + a[1..] && Tail(t) == Tail(t[1..])
  {}

  /** How one more character at the front changes the pieces. */
  function Prepend(c: char, parts: seq<string>): seq<string>
    requires |parts| >= 1
  {
    if c == '\n' then [""] + parts else [[c] + parts[0]] + parts[1..]
  }

  lemma SplitStep(c: char, a: seq<string>, b: seq<string>, whole: seq<string>)
    requires |b| >= 1 && whole == a + b
    ensures Prepend(c, whole) == if c == '\n' then ([""] + a) + b
                                 else if a == [] then Prepend(c, b)
                                 else ([[c] + a[0]] + a[1..]) + b
  {
    if a == [] {
      assert a + b == b;
    } else {
      assert whole[1..] == a[1..] + b;
    }
  }

  lemma {:induction false} SplitNoNewline(s: string)
    requires NoNewline(s)
    ensures Split(s) == [s]
  {
    if s != "" {
      SplitNoNewline(s[1..]);
      assert s == [s[0]] + s[1..];
    }
  }

  /** `Lines` and `Tail` are the one way of reading a text as newline-terminated lines and a remainder. */
  lemma {:induction false} LinesCharacterised(text: string, ls: seq<string>, t: string)
    ensures ls == Lines(text) && t == Tail(text) <==>
            && (forall i :: 0 <= i < |ls| ==> NoNewline(ls[i]))
            && NoNewline(t)
            && text == Unlines(ls) + t
    decreases |ls|
  {
    SplitPieces(text);
    UnlinesSplit(text);
    if (forall i :: 0 <= i < |ls| ==> NoNewline(ls[i])) && NoNewline(t) && text == Unlines(ls) + t {
      if ls == [] {
        assert text == t;
        SplitNoNewline(t);
      } else {
        var rest := Unlines(ls[1..]) + t;
        LinesCharacterised(rest, ls[1..], t);
        assert text == (ls[0] + "\n") + rest;
        FirstLine(ls[0], rest);
        assert Lines(text) == [ls[0]] + Lines(rest);
      }
    }
  }

  lemma FirstLine(l: string, rest: string)
    requires NoNewline(l)
    ensures Split(l + "\n" + rest) == [l] + Split(rest)
  {
    TerminatedLine(l);
    SplitAppend(l + "\n", rest);
    assert "" + rest == rest;
    assert Lines(l + "\n") == [l];
  }

  lemma {:induction false} TerminatedLine(l: string)
    requires NoNewline(l)
    ensures Split(l + "\n") == [l, ""]
  {
    if l == "" {
      assert l + "\n" == "\n";
      assert Split("\n"[1..]) == [""];
    } else {
      TerminatedLine(l[1..]);
      assert (l + "\n")[1..] == l[1..] + "\n";
      assert l == [l[0]] + l[1..];
    }
  }

  // ---- the parser ----

  lemma {:induction false} ParserPrefix(parse: string -> Option<Event>, a: seq<string>, b: seq<string>, ok: bool)
    ensures Verdict(parse, a, ok).None? ==> Handed(parse, a + b) == Handed(parse, a) && Verdict(parse, a + b, ok).None?
    ensures Verdict(parse, a, ok).Some? ==>
              && Handed(parse, a + b) == a + Handed(parse, b)
              && Verdict(parse, a + b, ok) == Verdict(parse, b, Verdict(parse, a, ok).value)
  {
    if a == [] {
      assert a + b == b;
    } else {
      assert (a + b)[0] == a[0] && (a + b)[1..] == a[1..] + b && a == [a[0]] + a[1..];
      match parse(a[0])
      case None =>
      case Some(Done(o)) => ParserPrefix(parse, a[1..], b, o);
      case Some(Progress(e)) => ParserPrefix(parse, a[1..], b, ok && !e);
    }
  }

  ghost predicate Rejects(parse: string -> Option<Event>, lines: seq<string>) {
    exists i :: 0 <= i < |lines| && parse(lines[i]).None?
  }

  /** Line `d` is the last "done" event, or `d` is -1 and there is none. */
  ghost predicate LastDone(parse: string -> Option<Event>, lines: seq<string>, d: int) {
    && -1 <= d < |lines|
    && (d >= 0 ==> parse(lines[d]).Some? && parse(lines[d]).value.Done?)
    && forall i :: d < i < |lines| && parse(lines[i]).Some? ==> !parse(lines[i]).value.Done?
  }

  /** The pull succeeded: the last "done" event, if there was any, says so, and no error came after it. */
  ghost predicate Succeeds(parse: string -> Option<Event>, lines: seq<string>, ok: bool, d: int) {
    && LastDone(parse, lines, d) && (if d >= 0 then parse(lines[d]) == Some(Done(true)) else ok)
    && forall i :: d < i < |lines| ==> parse(lines[i]) != Some(Progress(true))
  }

  /** The verdict is missing exactly if a line was rejected, and positive exactly if the last "done" event is and
      nothing failed after it; an error before a "done" event is forgotten. */
  lemma {:induction false} VerdictExact(parse: string -> Option<Event>, lines: seq<string>, ok: bool)
    ensures Verdict(parse, lines, ok).None? <==> Rejects(parse, lines)
    ensures Verdict(parse, lines, ok) == Some(true) <==>
              !Rejects(parse, lines) && exists d :: Succeeds(parse, lines, ok, d)
  {
    if lines == [] {
      assert LastDone(parse, lines, -1);
      assert Succeeds(parse, lines, ok, -1) <==> ok;
    } else {
      var init, last := lines[..|lines| - 1], lines[|lines| - 1];
      assert lines == init + [last];
      VerdictExact(parse, init, ok);
      ParserPrefix(parse, init, [last], ok);
      LastLine(parse, init, last, ok);
    }
  }

  lemma LastLine(parse: string -> Option<Event>, init: seq<string>, last: string, ok: bool)
    ensures Rejects(parse, init + [last]) <==> Rejects(parse, init) || parse(last).None?
    ensures (exists d :: Succeeds(parse, init + [last], ok, d)) <==>
              match parse(last)
              case Some(Done(o)) => o
              case Some(Progress(e)) => !e && exists d :: Succeeds(parse, init, ok, d)
              case None => exists d :: Succeeds(parse, init, ok, d)
  {
    var lines := init + [last];
    var n := |init|;
    assert lines[n] == last && forall i :: 0 <= i < n ==> lines[i] == init[i];
    match parse(last) {
      case Some(Done(o)) =>
        assert o ==> Succeeds(parse, lines, ok, n);
        forall d | Succeeds(parse, lines, ok, d) ensures d == n {}
      case _ =>
        forall d ensures Succeeds(parse, lines, ok, d) <==>
                           Succeeds(parse, init, ok, d) && parse(last) != Some(Progress(true)) {
          StillLast(parse, init, last, ok, d);
        }
    }
  }

  lemma StillLast(parse: string -> Option<Event>, init: seq<string>, last: string, ok: bool, d: int)
    requires parse(last).Some? ==> !parse(last).value.Done?
    ensures Succeeds(parse, init + [last], ok, d) <==>
              Succeeds(parse, init, ok, d) && parse(last) != Some(Progress(true))
  {
    var lines, n := init + [last], |init|;
    assert lines[n] == last && forall i :: 0 <= i < n ==> lines[i] == init[i];
    if Succeeds(parse, lines, ok, d) {
      assert d != n;
      forall i | d < i < n ensures parse(init[i]) != Some(Progress(true)) { assert lines[i] == init[i]; }
      forall i | d < i < n && parse(init[i]).Some? ensures !parse(init[i]).value.Done? { assert lines[i] == init[i]; }
    }
  }

  /** The parser sees every line up to and including the first one that it rejects. */
  lemma {:induction false} HandedExact(parse: string -> Option<Event>, lines: seq<string>, k: nat)
    ensures Handed(parse, lines) <= lines
    ensures k < |Handed(parse, lines)| <==>
              k < |lines| && forall i :: 0 <= i < k ==> parse(lines[i]).Some?
  {
    if lines != [] {
      var rest := lines[1..];
      assert lines == [lines[0]] + rest;
      HandedExact(parse, rest, if k > 0 then k - 1 else 0);
      assert forall i :: 0 < i < |lines| ==> lines[i] == rest[i - 1];
      assert forall i :: 0 <= i < |rest| ==> rest[i] == lines[i + 1];
    }
  }

  lemma {:induction false} AllHanded(parse: string -> Option<Event>, a: seq<string>, ok: bool)
    requires Verdict(parse, a, ok).Some?
    ensures Handed(parse, a) == a
  {
    ParserPrefix(parse, a, [], ok);
    assert a + [] == a;
  }

  lemma FlattenSnoc(chunks: seq<string>, i: nat)
    requires i < |chunks|
    ensures Flatten(chunks[..i + 1]) == Flatten(chunks[..i]) + chunks[i]
  {
    assert chunks[..i + 1][..i] == chunks[..i];
  }

  /** Extends what a finished prefix of the stream says to the whole stream. */
  lemma {:induction false} WholeText(chunks: seq<string>, i: nat)
    requires i <= |chunks|
    ensures Lines(Flatten(chunks[..i])) <= Lines(Flatten(chunks))
    decreases |chunks| - i
  {
    if i == |chunks| {
      assert chunks[..i] == chunks;
    } else {
      WholeText(chunks, i + 1);
      FlattenSnoc(chunks, i);
      SplitAppend(Flatten(chunks[..i]), chunks[i]);
      assert Lines(Flatten(chunks[..i])) <= Lines(Flatten(chunks[..i + 1]));
    }
  }

  lemma NonBlankSnoc(lines: seq<string>, k: nat)
    requires k < |lines|
    ensures NonBlank(lines[..k + 1]) == NonBlank(lines[..k]) + if Blank(lines[k]) then [] else [lines[k]]
  {
    assert lines[..k + 1] == lines[..k] + [lines[k]];
    FilterConcat((l: string) => !Blank(l), lines[..k], [lines[k]]);
  }

  /** Extends a rejection within one chunk to the whole list of lines. */
  lemma {:induction false} Rejection(parse: string -> Option<Event>, lines: seq<string>, k: nat, ok: bool)
    requires k < |lines| && !Blank(lines[k]) && parse(lines[k]).None?
    requires Verdict(parse, NonBlank(lines[..k]), ok).Some?
    ensures Verdict(parse, NonBlank(lines), ok).None?
    ensures Handed(parse, NonBlank(lines)) == NonBlank(lines[..k]) + [lines[k]]
  {
    var keep := (l: string) => !Blank(l);
    assert lines == lines[..k] + ([lines[k]] + lines[k + 1..]);
    FilterConcat(keep, lines[..k], [lines[k]] + lines[k + 1..]);
    var rest := NonBlank([lines[k]] + lines[k + 1..]);
    assert rest[0] == lines[k];
    ParserPrefix(parse, NonBlank(lines[..k]), rest, ok);
  }

  /** The inner loop: the complete lines of one chunk go to the parser. */
  method Feed(parse: string -> Option<Event>, lines: seq<string>, pullOk: bool)
    returns (handed: seq<string>, verdict: Option<bool>)
    ensures handed == Handed(parse, NonBlank(lines))
    ensures verdict == Verdict(parse, NonBlank(lines), pullOk)
  {
    handed := [];
    var ok := pullOk;
    var k := 0;
    while k < |lines|
      invariant 0 <= k <= |lines|
      invariant handed == NonBlank(lines[..k])
      invariant Verdict(parse, handed, pullOk) == Some(ok)
    {
      NonBlankSnoc(lines, k);
      if !Blank(lines[k]) {
        ParserPrefix(parse, handed, [lines[k]], pullOk);
        match parse(lines[k]) {
          case None =>
            Rejection(parse, lines, k, pullOk);
            return handed + [lines[k]], None;
          case Some(Done(o)) => ok := o;
          case Some(Progress(error)) => ok := ok && !error;
        }
        handed := handed + [lines[k]];
      }
      k := k + 1;
    }
    assert lines[..k] == lines;
    AllHanded(parse, handed, pullOk);
    verdict := Some(ok);
  }

  /** The read loop: whatever the chunks, the parser is handed the non-blank terminated lines of the whole
      text, in order, up to the first one it rejects, and the verdict is the verdict on those lines. */
  method Pull(chunks: seq<string>, parse: string -> Option<Event>)
    returns (handed: seq<string>, verdict: Option<bool>, buffer: string)
    ensures handed == Handed(parse, NonBlank(Lines(Flatten(chunks))))
    ensures verdict == Verdict(parse, NonBlank(Lines(Flatten(chunks))), true)
    ensures verdict.Some? ==> buffer == Tail(Flatten(chunks))
  {
    handed, buffer := [], "";
    var pullOk := true;
    var i := 0;
    while i < |chunks|
      invariant 0 <= i <= |chunks|
      invariant handed == NonBlank(Lines(Flatten(chunks[..i])))
      invariant Verdict(parse, handed, true) == Some(pullOk)
      invariant buffer == Tail(Flatten(chunks[..i]))
    {
      buffer := buffer + chunks[i];
      var parts := Split(buffer);
      var lines := parts[..|parts| - 1];
      buffer := parts[|parts| - 1];
      assert lines == Lines(Tail(Flatten(chunks[..i])) + chunks[i]);
      ChunkHanded(parse, chunks, i, handed, pullOk);
      var now, v := Feed(parse, lines, pullOk);
      handed := handed + now;
      if v.None? {
        verdict := None;
        return;
      }
      pullOk := v.value;
      i := i + 1;
    }
    assert chunks[..i] == chunks;
    AllHanded(parse, handed, true);
    verdict := Some(pullOk);
  }

  /** What one chunk adds, or how it ends the stream. */
  lemma ChunkHanded(parse: string -> Option<Event>, chunks: seq<string>, i: nat, handed: seq<string>, pullOk: bool)
    requires i < |chunks| && handed == NonBlank(Lines(Flatten(chunks[..i])))
    requires Verdict(parse, handed, true) == Some(pullOk)
    ensures var lines := NonBlank(Lines(Tail(Flatten(chunks[..i])) + chunks[i]));
            var all, v := handed + Handed(parse, lines), Verdict(parse, lines, pullOk);
            && (v.Some? ==> all == NonBlank(Lines(Flatten(chunks[..i + 1]))) && Verdict(parse, all, true) == v)
            && (v.None? ==> all == Handed(parse, NonBlank(Lines(Flatten(chunks))))
                            && Verdict(parse, NonBlank(Lines(Flatten(chunks))), true).None?)
    ensures Tail(Flatten(chunks[..i + 1])) == Tail(Tail(Flatten(chunks[..i])) + chunks[i])
  {
    var lines := NonBlank(Lines(Tail(Flatten(chunks[..i])) + chunks[i]));
    ChunkLines(chunks, i);
    ParserPrefix(parse, handed, lines, true);
    AllHanded(parse, handed, true);
    if Verdict(parse, lines, pullOk).Some? {
      AllHanded(parse, lines, pullOk);
    } else {
      var more := LaterLines(chunks, i + 1);
      ParserPrefix(parse, handed + lines, more, true);
    }
  }

  lemma ChunkLines(chunks: seq<string>, i: nat)
    requires i < |chunks|
    ensures var before, text := Flatten(chunks[..i]), Tail(Flatten(chunks[..i])) + chunks[i];
            && NonBlank(Lines(Flatten(chunks[..i + 1]))) == NonBlank(Lines(before)) + NonBlank(Lines(text))
            && Tail(Flatten(chunks[..i + 1])) == Tail(text)
  {
    var before, text := Flatten(chunks[..i]), Tail(Flatten(chunks[..i])) + chunks[i];
    FlattenSnoc(chunks, i);
    SplitAppend(before, chunks[i]);
    assert Lines(before + chunks[i]) == Lines(before) + Lines(text) by {
      assert Split(before + chunks[i])[..|Split(before + chunks[i])| - 1] == Lines(before) + Lines(text);
    }
    FilterConcat((l: string) => !Blank(l), Lines(before), Lines(text));
  }

  lemma LaterLines(chunks: seq<string>, i: nat) returns (more: seq<string>)
    requires i <= |chunks|
    ensures NonBlank(Lines(Flatten(chunks))) == NonBlank(Lines(Flatten(chunks[..i]))) + more
  {
    WholeText(chunks, i);
    var rest := Lines(Flatten(chunks))[|Lines(Flatten(chunks[..i]))|..];
    assert Lines(Flatten(chunks)) == Lines(Flatten(chunks[..i])) + rest;
    FilterConcat((l: string) => !Blank(l), Lines(Flatten(chunks[..i])), rest);
    more := NonBlank(rest);
  }

  /** The lines handed over are all non-blank pieces of the text, newline-terminated or not, if and only if the
      piece after the last newline is blank or the parser rejected a line before it. */
  lemma TailLostExact(text: string, parse: string -> Option<Event>)
    ensures NonBlank(Split(text)) == NonBlank(Lines(text)) <==> Blank(Tail(text))
    ensures Handed(parse, NonBlank(Split(text))) == Handed(parse, NonBlank(Lines(text)))
            <==> Blank(Tail(text)) || Verdict(parse, NonBlank(Lines(text)), true).None?
  {
    var lines, tail := Lines(text), Tail(text);
    assert Split(text) == lines + [tail];
    FilterConcat((l: string) => !Blank(l), lines, [tail]);
    assert [tail][1..] == [];
    ParserPrefix(parse, NonBlank(lines), NonBlank([tail]), true);
    if !Blank(tail) {
      assert NonBlank([tail]) == [tail];
      assert |NonBlank(Split(text))| == |NonBlank(lines)| + 1;
      if Verdict(parse, NonBlank(lines), true).Some? { AllHanded(parse, NonBlank(lines), true); }
    }
  }

  /** What follows the last newline changes no line: a last line without its newline is lost. */
  lemma UnterminatedLineLost(text: string, last: string)
    requires NoNewline(last)
    ensures Lines(Unlines(Lines(text)) + last) == Lines(text)
    ensures Tail(Unlines(Lines(text)) + last) == last
  {
    SplitPieces(text);
    LinesCharacterised(Unlines(Lines(text)) + last, Lines(text), last);
  }
}
