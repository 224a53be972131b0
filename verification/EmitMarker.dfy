/** The emit marker: its printer, its parser, and that they undo each other. */
module EmitMarker {
  import opened Options
  import opened Text

  datatype EmitKind = NameBased | Positional | Passthrough

  datatype EmitSpec = EmitSpec(kind: EmitKind, subject: string, fromParam: string, returnSlot: int)

  const MARKER := "vow:emit"

  // ----- one spec -----

  function ItoaInt(n: int): string {
    if n < 0 then "-" + Itoa(-n) else Itoa(n)
  }

  /** The spec's surface form. */
  function Show(s: EmitSpec): string {
    match s.kind
    case NameBased => s.subject
    case Positional => "$" + ItoaInt(s.returnSlot) + " " + s.subject
    case Passthrough => s.fromParam + " -> $" + ItoaInt(s.returnSlot)
  }

  function ParseReturnSlot(tok: string): (slot: Option<int>)
    ensures slot.Some? ==> 1 <= slot.value <= MAX_INT
  {
    if tok == [] || tok[0] != '$' then None
    else
      var n := Atoi(tok[1..]);
      if n.None? || n.value < 1 then None else n
  }

  function ParseSpec(entry: string): Option<EmitSpec> {
    var arrow := IndexPair(entry, '-', '>', 0);
    if arrow.Some? then
      var left, right := TrimSpace(entry[..arrow.value]), TrimSpace(entry[arrow.value + 2..]);
      var slot := ParseReturnSlot(right);
      if left == "" || right == "" || slot.None? then None
      else Some(EmitSpec(Passthrough, "", left, slot.value))
    else
      var fields := Fields(entry);
      if |fields| == 1 then
        if fields[0] != [] && fields[0][0] == '$' then None else Some(EmitSpec(NameBased, fields[0], "", 0))
      else if |fields| == 2 then
        var slot := ParseReturnSlot(fields[0]);
        if slot.None? then None else Some(EmitSpec(Positional, fields[1], "", slot.value))
      else None
  }

  /** The specs whose surface form means themselves. */
  predicate Printable(s: EmitSpec) {
    match s.kind
    case NameBased =>
      Token(s.subject) && s.subject[0] != '$' && NoPair(s.subject, '-', '>') && s.fromParam == "" && s.returnSlot == 0
    case Positional =>
      Token(s.subject) && NoPair(s.subject, '-', '>') && s.fromParam == "" && 1 <= s.returnSlot <= MAX_INT
    case Passthrough =>
      s.fromParam != "" && Trimmed(s.fromParam) && NoPair(s.fromParam, '-', '>')
      && s.subject == "" && 1 <= s.returnSlot <= MAX_INT
  }

  // ----- what is parsed prints -----

  lemma ParsedIsPrintable(entry: string)
    requires ParseSpec(entry).Some?
    ensures Printable(ParseSpec(entry).value)
  {
    var arrow := IndexPair(entry, '-', '>', 0);
    if arrow.Some? {
      var left := entry[..arrow.value];
      TrimSpaceIsTrimmed(left);
      NoPairBefore(entry, arrow.value);
    } else {
      FieldsInherit(entry, 0);
      forall w | w in Fields(entry)
        ensures NoPair(w, '-', '>')
      {
        assert Inherits(w, entry) && NoPair(entry, '-', '>');
      }
    }
  }

  lemma NoPairBefore(s: string, n: nat)
    requires n <= |s| && forall j | 0 <= j < n :: !PairAt(s, '-', '>', j)
    ensures NoPair(s[..n], '-', '>')
  {
    forall i | 0 <= i < n
      ensures !PairAt(s[..n], '-', '>', i)
    {
      assert !PairAt(s, '-', '>', i);
    }
  }

  lemma SlotReadsBack(n: nat)
    requires 1 <= n <= MAX_INT
    ensures ParseReturnSlot("$" + ItoaInt(n)) == Some(n)
  {
    AtoiOfItoa(n);
    assert ("$" + Itoa(n))[1..] == Itoa(n);
  }

  lemma ShownSlot(n: nat)
    ensures Token("$" + Itoa(n)) && NoPair("$" + Itoa(n), '-', '>')
    ensures ',' !in "$" + Itoa(n) && '/' !in "$" + Itoa(n)
  {
    var t := "$" + Itoa(n);
    assert forall i | 1 <= i < |t| :: IsDigit(t[i]);
    assert !IsSpace('$') && forall c | IsDigit(c) :: !IsSpace(c);
  }

  lemma NameBasedReadsBack(s: EmitSpec)
    requires s.kind == NameBased && Printable(s)
    ensures ParseSpec(Show(s)) == Some(s)
  {
    FieldsOfToken(s.subject);
    NoPairFound(s.subject);
  }

  lemma NoPairFound(s: string)
    requires NoPair(s, '-', '>')
    ensures IndexPair(s, '-', '>', 0) == None
  {
  }

  /** Two texts joined by a space have no pair across the joint. */
  lemma NoPairJoined(a: string, b: string, x: char, y: char)
    requires NoPair(a, x, y) && NoPair(b, x, y) && x != ' ' && y != ' '
    ensures NoPair(a + " " + b, x, y)
  {
    var s := a + " " + b;
    forall i | 0 <= i < |s|
      ensures !PairAt(s, x, y, i)
    {
      if i < |a| {
        assert !PairAt(a, x, y, i);
      } else if i > |a| {
        assert !PairAt(b, x, y, i - |a| - 1);
      }
    }
  }

  lemma PositionalReadsBack(s: EmitSpec)
    requires s.kind == Positional && Printable(s)
    ensures ParseSpec(Show(s)) == Some(s)
  {
    var slot := "$" + ItoaInt(s.returnSlot);
    ShownSlot(s.returnSlot);
    SlotReadsBack(s.returnSlot);
    NoPairJoined(slot, s.subject, '-', '>');
    NoPairFound(Show(s));
    FieldsOfTwo(slot, s.subject);
  }

  /** The arrow of a printed passthrough is its first. */
  lemma ArrowFound(left: string, right: string)
    requires NoPair(left, '-', '>')
    ensures var text := left + " -> " + right;
      IndexPair(text, '-', '>', 0) == Some(|left| + 1) && text[..|left| + 1] == left + " "
      && text[|left| + 3..] == " " + right
  {
    var text := left + " -> " + right;
    forall j | 0 <= j < |left| + 1
      ensures !PairAt(text, '-', '>', j)
    {
      if j < |left| {
        assert !PairAt(left, '-', '>', j);
      }
    }
    IndexPairIs(text, '-', '>', |left| + 1);
  }

  lemma PassthroughReadsBack(s: EmitSpec)
    requires s.kind == Passthrough && Printable(s)
    ensures ParseSpec(Show(s)) == Some(s)
  {
    hide IsSpace, ItoaInt, ParseReturnSlot, TrimSpace, IndexPair;
    var slot := "$" + ItoaInt(s.returnSlot);
    assert Show(s) == s.fromParam + " -> " + slot;
    ArrowFound(s.fromParam, slot);
    TrimBeforeSpace(s.fromParam);
    SlotIsToken(s.returnSlot);
    TrimAfterSpace(slot);
    SlotReadsBack(s.returnSlot);
  }

  lemma SlotIsToken(n: nat)
    ensures "$" + ItoaInt(n) != "" && Trimmed("$" + ItoaInt(n))
  {
    ShownSlot(n);
  }

  lemma TrimBeforeSpace(s: string)
    requires s != "" && Trimmed(s)
    ensures TrimSpace(s + " ") == s
  {
    var t := s + " ";
    assert t[0] == s[0] && t[|s| - 1] == s[|s| - 1] && IsSpace(t[|s|]);
    assert SpacesFrom(t, 0) == 0 && SpacesBefore(t, 0, |t|) == |s|;
    assert t[0..|s|] == s;
  }

  /** A spec reads back as itself exactly when it is printable. */
  lemma ReadsBackIff(s: EmitSpec)
    ensures ParseSpec(Show(s)) == Some(s) <==> Printable(s)
  {
    if ParseSpec(Show(s)) == Some(s) {
      ParsedIsPrintable(Show(s));
    }
    if Printable(s) {
      match s.kind
      case NameBased => NameBasedReadsBack(s);
      case Positional => PositionalReadsBack(s);
      case Passthrough => PassthroughReadsBack(s);
    }
  }

  // ----- a marker line -----

  datatype MarkerLine = Absent | Present(scope: seq<string>, specs: seq<EmitSpec>)

  /** The `[X]` segments a text starts with, and the payload after them. */
  function Segments(rest: string): Option<(seq<string>, string)>
    decreases |rest|
  {
    if rest == [] || rest[0] != '[' then Some(([], TrimSpace(rest)))
    else
      var close := IndexChar(rest, ']');
      if close.None? then None
      else
        assert close.value >= 1;
        var segment := TrimSpace(rest[1..close.value]);
        var more := Segments(rest[close.value + 1..]);
        if segment == "" || more.None? then None else Some(([segment] + more.value.0, more.value.1))
  }

  /** The scope chain and payload of a line that carries the marker. */
  function StripChain(line: string, marker: string): Option<(seq<string>, string)> {
    if !(marker <= line) then None
    else
      var rest := line[|marker|..];
      if rest == [] then Some(([], ""))
      else if rest[0] == ' ' || rest[0] == '\t' then Some(([], TrimSpace(rest)))
      else if rest[0] == '[' then Segments(rest)
      else None
  }

  /** Families with a single subject accept no longer chain; no subject is "". */
  function StripScope(line: string, marker: string): Option<(string, string)> {
    var chain := StripChain(line, marker);
    if chain.None? || |chain.value.0| > 1 then None
    else Some((if chain.value.0 == [] then "" else chain.value.0[0], chain.value.1))
  }

  function TrimInlineComment(payload: string): string {
    var comment := IndexPair(payload, '/', '/', 0);
    TrimSpace(if comment.Some? then payload[..comment.value] else payload)
  }

  /** The specs of comma-separated entries, blank ones skipped; one malformed
      entry spoils them all. */
  function ParseSpecs(parts: seq<string>): Option<seq<EmitSpec>> {
    if parts == [] then Some([])
    else
      var before := ParseSpecs(parts[..|parts| - 1]);
      var entry := TrimSpace(parts[|parts| - 1]);
      if before.None? || entry == "" then before
      else if ParseSpec(entry).None? then None
      else Some(before.value + [ParseSpec(entry).value])
  }

  function ParseLine(line: string): MarkerLine {
    var chain := StripChain(line, MARKER);
    if chain.None? then Absent
    else
      var body := TrimInlineComment(chain.value.1);
      var specs := if body == "" then Some([]) else ParseSpecs(Split(body, ','));
      Present(chain.value.0, if specs.None? then [] else specs.value)
  }

  function ShowScope(scope: seq<string>): string {
    if scope == [] then "" else "[" + scope[0] + "]" + ShowScope(scope[1..])
  }

  function ShowAll(specs: seq<EmitSpec>): (shown: seq<string>)
    ensures |shown| == |specs|
  {
    seq(|specs|, i requires 0 <= i < |specs| => Show(specs[i]))
  }

  function ShowLine(scope: seq<string>, specs: seq<EmitSpec>): string {
    MARKER + ShowScope(scope) + if specs == [] then "" else " " + Join(ShowAll(specs), ", ")
  }

  // ----- what a line can carry -----

  predicate Segment(x: string) {
    x != "" && Trimmed(x) && ']' !in x
  }

  /** No commas, which separate entries, and no `//`, which ends them. */
  predicate Listable(s: EmitSpec) {
    && ',' !in s.subject && ',' !in s.fromParam
    && NoPair(s.subject, '/', '/') && NoPair(s.fromParam, '/', '/')
  }

  predicate Writable(scope: seq<string>, specs: seq<EmitSpec>) {
    && (forall x | x in scope :: Segment(x))
    && (forall s | s in specs :: Printable(s) && Listable(s))
  }

  lemma {:induction false} SegmentsAreWhole(rest: string)
    requires Segments(rest).Some?
    ensures forall x | x in Segments(rest).value.0 :: Segment(x)
    decreases |rest|
  {
    if rest != [] && rest[0] == '[' {
      var close := IndexChar(rest, ']').value;
      SegmentsAreWhole(rest[close + 1..]);
      TrimSpaceIsTrimmed(rest[1..close]);
      assert forall c | c in rest[1..close] :: c in rest[..close];
    }
  }

  lemma EntryIsListable(entry: string)
    requires ',' !in entry && NoPair(entry, '/', '/') && ParseSpec(entry).Some?
    ensures Listable(ParseSpec(entry).value)
  {
    assert Inherits("", entry) by {
      SliceInherits(entry, 0, 0);
    }
    var arrow := IndexPair(entry, '-', '>', 0);
    if arrow.Some? {
      SliceInherits(entry, 0, arrow.value);
      assert entry[0..arrow.value] == entry[..arrow.value];
      TrimSpaceIsTrimmed(entry[..arrow.value]);
    } else {
      FieldsInherit(entry, 0);
      forall w | w in Fields(entry)
        ensures NoPair(w, '/', '/') && ',' !in w
      {
        assert Inherits(w, entry) && NoPair(entry, '/', '/');
      }
    }
  }

  lemma {:induction false} ParsedSpecsAreWritable(parts: seq<string>)
    requires ParseSpecs(parts).Some? && forall p | p in parts :: ',' !in p && NoPair(p, '/', '/')
    ensures forall s | s in ParseSpecs(parts).value :: Printable(s) && Listable(s)
  {
    if parts != [] {
      ParsedSpecsAreWritable(parts[..|parts| - 1]);
      var part := parts[|parts| - 1];
      var entry := TrimSpace(part);
      TrimSpaceIsTrimmed(part);
      assert part in parts;
      assert Inherits(entry, part) && NoPair(part, '/', '/');
      if entry != "" && ParseSpec(entry).Some? {
        ParsedIsPrintable(entry);
        EntryIsListable(entry);
      }
    }
  }

  lemma CommentIsGone(payload: string)
    ensures NoPair(TrimInlineComment(payload), '/', '/')
  {
    var comment := IndexPair(payload, '/', '/', 0);
    var kept := if comment.Some? then payload[..comment.value] else payload;
    TrimSpaceIsTrimmed(kept);
    if comment.Some? {
      forall i | 0 <= i < |kept|
        ensures !PairAt(kept, '/', '/', i)
      {
        assert !PairAt(payload, '/', '/', i);
      }
    }
    assert NoPair(kept, '/', '/');
  }

  /** Everything parsed can be written back. */
  lemma ParsedIsWritable(line: string)
    requires ParseLine(line).Present?
    ensures Writable(ParseLine(line).scope, ParseLine(line).specs)
  {
    var chain := StripChain(line, MARKER).value;
    if Segments(line[|MARKER|..]).Some? {
      SegmentsAreWhole(line[|MARKER|..]);
    }
    var body := TrimInlineComment(chain.1);
    CommentIsGone(chain.1);
    SplitInherits(body, ',');
    forall p | p in Split(body, ',')
      ensures NoPair(p, '/', '/')
    {
      assert Inherits(p, body);
    }
    if ParseSpecs(Split(body, ',')).Some? {
      ParsedSpecsAreWritable(Split(body, ','));
    }
  }

  // ----- writing back -----

  lemma ShownIsClean(s: EmitSpec)
    requires Printable(s) && Listable(s)
    ensures Show(s) != "" && Trimmed(Show(s)) && ',' !in Show(s) && NoPair(Show(s), '/', '/')
  {
    if s.kind != NameBased {
      var slot := "$" + ItoaInt(s.returnSlot);
      ShownSlot(s.returnSlot);
      assert NoPair(slot, '/', '/');
      if s.kind == Positional {
        NoPairJoined(slot, s.subject, '/', '/');
      } else {
        assert Show(s) == s.fromParam + " " + ("->" + " " + slot);
        assert NoPair("->", '/', '/');
        NoPairJoined("->", slot, '/', '/');
        NoPairJoined(s.fromParam, "->" + " " + slot, '/', '/');
      }
    }
  }

  predicate Clean(x: string) {
    x != "" && Trimmed(x) && ',' !in x && NoPair(x, '/', '/')
  }

  lemma {:induction false} JoinIsClean(parts: seq<string>)
    requires |parts| > 0 && forall x | x in parts :: Clean(x)
    ensures var j := Join(parts, ", "); j != "" && Trimmed(j) && NoPair(j, '/', '/')
    decreases |parts|
  {
    assert parts[0] in parts;
    if |parts| > 1 {
      JoinIsClean(parts[1..]);
      var first, rest := parts[0] + ",", Join(parts[1..], ", ");
      assert parts[0] + ", " + rest == first + " " + rest;
      forall i | 0 <= i < |first|
        ensures !PairAt(first, '/', '/', i)
      {
        assert !PairAt(parts[0], '/', '/', i);
      }
      NoPairJoined(first, rest, '/', '/');
    }
  }

  lemma {:induction false} EntriesReadBack(parts: seq<string>, specs: seq<EmitSpec>)
    requires |parts| == |specs|
    requires forall i | 0 <= i < |specs| :: TrimSpace(parts[i]) == Show(specs[i]) != "" && Printable(specs[i])
    ensures ParseSpecs(parts) == Some(specs)
  {
    hide ParseSpec, Show, Printable, TrimSpace;
    if specs != [] {
      var n := |specs| - 1;
      EntriesReadBack(parts[..n], specs[..n]);
      ReadsBackIff(specs[n]);
      assert specs == specs[..n] + [specs[n]];
    }
  }

  lemma ListReadsBack(specs: seq<EmitSpec>)
    requires |specs| > 0 && forall s | s in specs :: Printable(s) && Listable(s)
    ensures ParseSpecs(Split(Join(ShowAll(specs), ", "), ',')) == Some(specs)
  {
    hide Show, Printable, Listable, TrimSpace, Split, ParseSpec, Trimmed;
    var shown := ShowAll(specs);
    forall i | 0 <= i < |specs|
      ensures Clean(shown[i])
    {
      assert specs[i] in specs;
      ShownIsClean(specs[i]);
    }
    SplitJoined(shown);
    var parts := Split(Join(shown, ", "), ',');
    forall i | 0 <= i < |specs|
      ensures TrimSpace(parts[i]) == Show(specs[i]) != "" && Printable(specs[i])
    {
      assert specs[i] in specs && Clean(shown[i]);
      TrimSpaceIsTrimmed(shown[i]);
      TrimAfterSpace(shown[i]);
    }
    EntriesReadBack(parts, specs);
  }

  /** What a text with a closed first segment comes to. */
  lemma SegmentsStep(rest: string, close: nat)
    requires rest != [] && rest[0] == '[' && IndexChar(rest, ']') == Some(close)
    ensures 1 <= close < |rest|
    ensures var segment, more := TrimSpace(rest[1..close]), Segments(rest[close + 1..]);
      Segments(rest) == if segment == "" || more.None? then None else Some(([segment] + more.value.0, more.value.1))
  {
    hide TrimSpace;
  }

  lemma SegmentsEnd(rest: string)
    requires rest == [] || rest[0] != '['
    ensures Segments(rest) == Some(([], TrimSpace(rest)))
  {
    hide TrimSpace;
  }

  lemma {:induction false} ScopeReadsBack(scope: seq<string>, tail: string)
    requires (forall x | x in scope :: Segment(x)) && (tail == "" || tail[0] == ' ')
    ensures Segments(ShowScope(scope) + tail) == Some((scope, TrimSpace(tail)))
    decreases |scope|
  {
    hide Segments, TrimSpace;
    if scope == [] {
      assert ShowScope(scope) + tail == tail;
      SegmentsEnd(tail);
    } else {
      assert scope[0] in scope;
      ScopeReadsBack(scope[1..], tail);
      var more := ShowScope(scope[1..]) + tail;
      assert ShowScope(scope) + tail == "[" + scope[0] + "]" + more;
      SegmentReadsBack(scope[0], more);
      assert [scope[0]] + scope[1..] == scope;
    }
  }

  lemma SegmentReadsBack(x: string, more: string)
    requires Segment(x) && Segments(more).Some?
    ensures Segments("[" + x + "]" + more) == Some(([x] + Segments(more).value.0, Segments(more).value.1))
  {
    hide Segments, TrimSpace;
    var text := "[" + x + "]" + more;
    assert text[..|x| + 1] == "[" + x;
    IndexCharIs(text, ']', |x| + 1);
    assert text[1..|x| + 1] == x && text[|x| + 2..] == more;
    TrimSpaceIsTrimmed(x);
    SegmentsStep(text, |x| + 1);
  }

  lemma ChainReadsBack(marker: string, scope: seq<string>, tail: string)
    requires (forall x | x in scope :: Segment(x)) && (tail == "" || tail[0] == ' ')
    ensures StripChain(marker + ShowScope(scope) + tail, marker) == Some((scope, TrimSpace(tail)))
  {
    hide Segments, TrimSpace, Segment;
    var line := marker + ShowScope(scope) + tail;
    var rest := ShowScope(scope) + tail;
    assert line[|marker|..] == rest && marker <= line;
    ScopeReadsBack(scope, tail);
    if scope == [] {
      assert rest == tail;
      if tail == "" {
        TrimSpaceIsTrimmed("");
      }
    } else {
      assert rest[0] == '[';
    }
  }

  lemma WritableReadsBack(scope: seq<string>, specs: seq<EmitSpec>)
    requires Writable(scope, specs)
    ensures ParseLine(ShowLine(scope, specs)) == Present(scope, specs)
  {
    if specs == [] {
      ChainReadsBack(MARKER, scope, "");
      assert MARKER + ShowScope(scope) + "" == ShowLine(scope, specs);
    } else {
      var list := Join(ShowAll(specs), ", ");
      forall x | x in ShowAll(specs)
        ensures Clean(x)
      {
        var i :| 0 <= i < |specs| && ShowAll(specs)[i] == x;
        assert specs[i] in specs;
        ShownIsClean(specs[i]);
      }
      JoinIsClean(ShowAll(specs));
      ChainReadsBack(MARKER, scope, " " + list);
      TrimAfterSpace(list);
      TrimSpaceIsTrimmed(list);
      ListReadsBack(specs);
    }
  }

  /** A scope and specs survive being written and read exactly when a line can
      carry them. */
  lemma LineReadsBackIff(scope: seq<string>, specs: seq<EmitSpec>)
    ensures ParseLine(ShowLine(scope, specs)) == Present(scope, specs) <==> Writable(scope, specs)
  {
    if ParseLine(ShowLine(scope, specs)) == Present(scope, specs) {
      ParsedIsWritable(ShowLine(scope, specs));
    }
    if Writable(scope, specs) {
      WritableReadsBack(scope, specs);
    }
  }

  /** Printing then parsing is the identity on everything parsed. */
  lemma ParsedReadsBack(line: string)
    requires ParseLine(line).Present?
    ensures ParseLine(ShowLine(ParseLine(line).scope, ParseLine(line).specs)) == ParseLine(line)
  {
    ParsedIsWritable(line);
    WritableReadsBack(ParseLine(line).scope, ParseLine(line).specs);
  }

  // ----- what is well formed -----

  /** Bracketed segments one after another, as written. */
  function Bracketed(raws: seq<string>): string {
    if raws == [] then "" else "[" + raws[0] + "]" + Bracketed(raws[1..])
  }

  function TrimAll(raws: seq<string>): (trimmed: seq<string>)
    ensures |trimmed| == |raws| && forall i | 0 <= i < |raws| :: trimmed[i] == TrimSpace(raws[i])
  {
    seq(|raws|, i requires 0 <= i < |raws| => TrimSpace(raws[i]))
  }

  /** The text is such a chain, none of its segments blank, and then no bracket. */
  predicate WellBracketed(rest: string, raws: seq<string>, tail: string) {
    && rest == Bracketed(raws) + tail && (tail == "" || tail[0] != '[')
    && forall i | 0 <= i < |raws| :: Closed(raws[i])
  }

  /** What may stand between brackets. */
  predicate Closed(raw: string) {
    ']' !in raw && TrimSpace(raw) != ""
  }

  /** Reading a chain succeeds exactly on such texts, and gives the segments and
      what follows them, each without the white space around it. */
  lemma SegmentsExact(rest: string, chain: seq<string>, payload: string)
    ensures Segments(rest) == Some((chain, payload)) <==>
      exists raws, tail :: WellBracketed(rest, raws, tail) && chain == TrimAll(raws) && payload == TrimSpace(tail)
  {
    hide TrimSpace;
    if Segments(rest) == Some((chain, payload)) {
      var raws, tail := SegmentsTaken(rest);
    }
    if raws, tail :| WellBracketed(rest, raws, tail) && chain == TrimAll(raws) && payload == TrimSpace(tail) {
      BracketedRead(rest, raws, tail);
    }
  }

  lemma {:induction false} SegmentsTaken(rest: string) returns (raws: seq<string>, tail: string)
    requires Segments(rest).Some?
    ensures WellBracketed(rest, raws, tail)
    ensures Segments(rest) == Some((TrimAll(raws), TrimSpace(tail)))
    decreases |rest|
  {
    hide TrimSpace, WellBracketed;
    if rest == [] || rest[0] != '[' {
      raws, tail := [], rest;
      NoBrackets(rest);
    } else {
      var close := IndexChar(rest, ']').value;
      SegmentsStep(rest, close);
      var more;
      more, tail := SegmentsTaken(rest[close + 1..]);
      raws := [rest[1..close]] + more;
      OpensWith(rest, close);
      OneMoreBracket(rest[1..close], rest[close + 1..], more, tail);
    }
  }

  lemma NoBrackets(rest: string)
    requires rest == [] || rest[0] != '['
    ensures WellBracketed(rest, [], rest) && TrimAll([]) == []
  {
    assert Bracketed([]) + rest == rest;
  }

  lemma OneMoreBracket(x: string, rest: string, more: seq<string>, tail: string)
    requires Closed(x) && WellBracketed(rest, more, tail)
    ensures WellBracketed("[" + x + "]" + rest, [x] + more, tail)
    ensures TrimAll([x] + more) == [TrimSpace(x)] + TrimAll(more)
  {
    hide TrimSpace, Closed, Bracketed;
    BracketedMore(x, more);
    SameText("[" + x + "]", Bracketed(more), tail);
  }

  lemma BracketedMore(x: string, more: seq<string>)
    ensures Bracketed([x] + more) == "[" + x + "]" + Bracketed(more)
  {
    assert ([x] + more)[1..] == more;
  }

  lemma OpensWith(rest: string, close: nat)
    requires 1 <= close < |rest| && rest[0] == '[' && rest[close] == ']' && ']' !in rest[..close]
    ensures rest == "[" + rest[1..close] + "]" + rest[close + 1..] && ']' !in rest[1..close]
  {
    assert forall k | 0 <= k < close - 1 :: rest[1..close][k] == rest[..close][k + 1];
  }

  lemma SameText(a: string, b: string, c: string)
    ensures a + (b + c) == a + b + c
  {
  }

  lemma {:induction false} BracketedRead(rest: string, raws: seq<string>, tail: string)
    requires WellBracketed(rest, raws, tail)
    ensures Segments(rest) == Some((TrimAll(raws), TrimSpace(tail)))
    decreases |raws|
  {
    hide Segments, TrimSpace;
    if raws == [] {
      assert rest == tail;
      SegmentsEnd(rest);
      assert TrimAll(raws) == [];
    } else {
      var x, more := raws[0], Bracketed(raws[1..]) + tail;
      assert Closed(x) && rest == "[" + x + "]" + more;
      assert rest[..|x| + 1] == "[" + x && rest[|x| + 1] == ']';
      IndexCharIs(rest, ']', |x| + 1);
      assert rest[1..|x| + 1] == x && rest[|x| + 2..] == more;
      BracketedRead(more, raws[1..], tail);
      SegmentsStep(rest, |x| + 1);
      assert TrimAll(raws) == [TrimSpace(x)] + TrimAll(raws[1..]);
    }
  }

  /** A line carries a marker exactly when nothing, white space or such a chain
      follows it. */
  lemma StripChainExact(line: string, marker: string, chain: seq<string>, payload: string)
    ensures StripChain(line, marker) == Some((chain, payload)) <==>
      exists rest :: line == marker + rest && (
        || ((rest == "" || rest[0] == ' ' || rest[0] == '\t') && chain == [] && payload == TrimSpace(rest))
        || (rest != "" && rest[0] == '[' && Segments(rest) == Some((chain, payload))))
  {
    hide TrimSpace, Segments;
    TrimSpaceIsTrimmed("");
    EmptyIsTrimmed();
    if marker <= line {
      var rest := line[|marker|..];
      assert line == marker + rest;
      forall other | line == marker + other
        ensures other == rest
      {
        assert other == line[|marker|..];
      }
    }
  }

  predicate Blank(part: string) {
    TrimSpace(part) == ""
  }

  /** A list of entries reads exactly when every entry that is not blank does, and
      as the specs of those entries in their order. */
  lemma {:induction false} ParseSpecsExact(parts: seq<string>)
    ensures ParseSpecs(parts).Some? <==> forall p | p in parts :: Blank(p) || ParseSpec(TrimSpace(p)).Some?
    ensures ParseSpecs(parts).Some? ==> exists at: seq<nat> :: ReadAt(parts, ParseSpecs(parts).value, at)
  {
    hide TrimSpace, ParseSpec;
    if parts == [] {
      assert ReadAt([], [], []);
    } else {
      var n := |parts| - 1;
      assert parts == parts[..n] + [parts[n]];
      ParseSpecsExact(parts[..n]);
      if ParseSpecs(parts).Some? {
        var before := ParseSpecs(parts[..n]).value;
        var at: seq<nat> :| ReadAt(parts[..n], before, at);
        OneMoreRead(parts, before, at);
      }
    }
  }

  /** `at` lists the entries that are not blank, and specs what they say. */
  predicate ReadAt(parts: seq<string>, specs: seq<EmitSpec>, at: seq<nat>) {
    && |at| == |specs| && (forall i, j | 0 <= i < j < |at| :: at[i] < at[j])
    && (forall i | 0 <= i < |at| :: at[i] < |parts| && ParseSpec(TrimSpace(parts[at[i]])) == Some(specs[i]))
    && (forall x | 0 <= x < |parts| :: x in at <==> !Blank(parts[x]))
  }

  lemma OneMoreRead(parts: seq<string>, before: seq<EmitSpec>, at: seq<nat>)
    requires parts != [] && ReadAt(parts[..|parts| - 1], before, at)
    requires Blank(parts[|parts| - 1]) || ParseSpec(TrimSpace(parts[|parts| - 1])).Some?
    ensures var entry := parts[|parts| - 1];
      if Blank(entry) then ReadAt(parts, before, at)
      else ReadAt(parts, before + [ParseSpec(TrimSpace(entry)).value], at + [|parts| - 1])
  {
    hide TrimSpace, ParseSpec;
    var n := |parts| - 1;
    assert forall x | 0 <= x < n :: parts[..n][x] == parts[x];
  }

  // ----- other ways of writing the same -----

  /** White space around and between the parts of an entry does not matter. */
  lemma SpacingIsFree(s: EmitSpec, a: string, b: string, c: string, e: string)
    requires Printable(s) && AllSpace(a) && AllSpace(b) && AllSpace(c) && AllSpace(e)
    ensures s.kind == NameBased ==> ParseSpec(a + s.subject + b) == Some(s)
    ensures s.kind == Positional && b != "" ==>
      ParseSpec(a + ("$" + ItoaInt(s.returnSlot)) + b + s.subject + c) == Some(s)
    ensures s.kind == Passthrough ==>
      ParseSpec((a + s.fromParam + b) + "->" + (c + ("$" + ItoaInt(s.returnSlot)) + e)) == Some(s)
  {
    match s.kind
    case NameBased => SpacedName(s, a, b);
    case Positional =>
      if b != "" {
        SpacedSlot(s, a, b, c);
      }
    case Passthrough => SpacedPassthrough(s, a, b, c, e);
  }

  lemma SpacedName(s: EmitSpec, a: string, b: string)
    requires Printable(s) && s.kind == NameBased && AllSpace(a) && AllSpace(b)
    ensures ParseSpec(a + s.subject + b) == Some(s)
  {
    FieldsOfSpacedToken(a, s.subject, b);
    NoArrowSpaced(a, s.subject, b);
    NoPairFound(a + s.subject + b);
  }

  lemma NoArrowSpaced(a: string, v: string, b: string)
    requires AllSpace(a) && NoPair(v, '-', '>') && AllSpace(b)
    ensures NoPair(a + v + b, '-', '>')
  {
    var t := a + v + b;
    forall i | 0 <= i < |t|
      ensures !PairAt(t, '-', '>', i)
    {
      assert !IsSpace('-') && !IsSpace('>');
      if |a| <= i < |a| + |v| {
        assert !PairAt(v, '-', '>', i - |a|);
      }
    }
  }

  lemma SpacedSlot(s: EmitSpec, a: string, b: string, c: string)
    requires Printable(s) && s.kind == Positional && AllSpace(a) && AllSpace(b) && b != "" && AllSpace(c)
    ensures ParseSpec(a + ("$" + ItoaInt(s.returnSlot)) + b + s.subject + c) == Some(s)
  {
    hide AllSpace, NoPair, Token;
    var slot := "$" + ItoaInt(s.returnSlot);
    ShownSlot(s.returnSlot);
    SlotReadsBack(s.returnSlot);
    NothingIsSpace();
    FieldsOfSpacedTwo(a, slot, b, s.subject, c);
    NoArrowSpaced(a, slot, b);
    var left := a + slot + b;
    NoArrowAcross(left, s.subject + c, b);
    NoArrowSpaced("", s.subject, c);
    assert "" + s.subject + c == s.subject + c;
    assert left + (s.subject + c) == a + slot + b + s.subject + c;
    NoPairFound(a + slot + b + s.subject + c);
  }

  lemma NothingIsSpace()
    ensures AllSpace("")
  {
  }

  /** A text that ends in a space shares no pair with what follows. */
  lemma NoArrowAcross(left: string, right: string, gap: string)
    requires NoPair(left, '-', '>') && gap != "" && AllSpace(gap) && |gap| <= |left| && left[|left| - |gap|..] == gap
    ensures NoPair(right, '-', '>') ==> NoPair(left + right, '-', '>')
  {
    var t := left + right;
    assert left[|left| - 1] == gap[|gap| - 1] && !IsSpace('-');
    if NoPair(right, '-', '>') {
      forall i | 0 <= i < |t|
        ensures !PairAt(t, '-', '>', i)
      {
        if i < |left| {
          assert !PairAt(left, '-', '>', i);
        } else {
          assert !PairAt(right, '-', '>', i - |left|);
        }
      }
    }
  }

  lemma SpacedPassthrough(s: EmitSpec, a: string, b: string, c: string, e: string)
    requires Printable(s) && s.kind == Passthrough && AllSpace(a) && AllSpace(b) && AllSpace(c) && AllSpace(e)
    ensures ParseSpec((a + s.fromParam + b) + "->" + (c + ("$" + ItoaInt(s.returnSlot)) + e)) == Some(s)
  {
    var slot := "$" + ItoaInt(s.returnSlot);
    var left, right := a + s.fromParam + b, c + slot + e;
    var entry := left + "->" + right;
    NoArrowSpaced(a, s.fromParam, b);
    assert PairAt(entry, '-', '>', |left|);
    forall j | 0 <= j < |left|
      ensures !PairAt(entry, '-', '>', j)
    {
      assert !PairAt(left, '-', '>', j);
    }
    IndexPairIs(entry, '-', '>', |left|);
    assert entry[..|left|] == left && entry[|left| + 2..] == right;
    TrimSpaced(a, s.fromParam, b);
    SlotIsToken(s.returnSlot);
    TrimSpaced(c, slot, e);
    SlotReadsBack(s.returnSlot);
  }

  // ----- comments -----

  /** What precedes the first `//` is kept, trimmed, and all that follows goes. */
  lemma CommentDropped(kept: string, comment: string)
    requires NoPair(kept + "/", '/', '/')
    ensures TrimInlineComment(kept + "//" + comment) == TrimSpace(kept)
  {
    var payload := kept + "//" + comment;
    forall j | 0 <= j < |kept|
      ensures !PairAt(payload, '/', '/', j)
    {
      assert !PairAt(kept + "/", '/', '/', j);
    }
    IndexPairIs(payload, '/', '/', |kept|);
    assert payload[..|kept|] == kept;
  }

  lemma NoComment(payload: string)
    requires NoPair(payload, '/', '/')
    ensures TrimInlineComment(payload) == TrimSpace(payload)
  {
  }

  /** A written line reads the same with any comment after it. */
  lemma CommentedReadsBack(scope: seq<string>, specs: seq<EmitSpec>, comment: string)
    requires Writable(scope, specs)
    ensures ParseLine(ShowLine(scope, specs) + " //" + comment) == Present(scope, specs)
  {
    hide TrimSpace, Show, Printable, Listable, StripChain, Split, ParseSpecs, Trimmed, Segment;
    var line := ShowLine(scope, specs) + " //" + comment;
    if specs == [] {
      SlashesAreTrimmed("");
      var kept := TrimOpen("//", comment);
      assert line == MARKER + ShowScope(scope) + (" " + "//" + comment);
      ChainReadsBack(MARKER, scope, " " + "//" + comment);
      assert "//" + kept == "" + "//" + kept;
      CommentDropped("", kept);
      TrimSpaceIsTrimmed("");
      EmptyIsTrimmed();
    } else {
      var list := Join(ShowAll(specs), ", ");
      ListIsClean(specs);
      SlashesAreTrimmed(list);
      var core := list + " //";
      var kept := TrimOpen(core, comment);
      assert line == MARKER + ShowScope(scope) + (" " + core + comment);
      ChainReadsBack(MARKER, scope, " " + core + comment);
      assert core + kept == (list + " ") + "//" + kept;
      NoPairBeforeSpace(list);
      CommentDropped(list + " ", kept);
      TrimBeforeSpace(list);
      ListReadsBack(specs);
    }
  }

  lemma EmptyIsTrimmed()
    ensures Trimmed("")
  {
  }

  lemma SlashesAreTrimmed(list: string)
    requires Trimmed(list)
    ensures list == "" ==> Trimmed("//") && NoPair("" + "/", '/', '/')
    ensures list != "" ==> Trimmed(list + " //")
  {
  }

  lemma NoPairBeforeSpace(list: string)
    requires NoPair(list, '/', '/')
    ensures NoPair(list + " " + "/", '/', '/')
  {
    var t := list + " " + "/";
    forall j | 0 <= j < |t|
      ensures !PairAt(t, '/', '/', j)
    {
      assert j < |list| ==> !PairAt(list, '/', '/', j);
    }
  }

  lemma ListIsClean(specs: seq<EmitSpec>)
    requires |specs| > 0 && forall s | s in specs :: Printable(s) && Listable(s)
    ensures var list := Join(ShowAll(specs), ", "); list != "" && Trimmed(list) && NoPair(list, '/', '/')
  {
    hide Show, Printable, Listable;
    forall x | x in ShowAll(specs)
      ensures Clean(x)
    {
      var i :| 0 <= i < |specs| && ShowAll(specs)[i] == x;
      assert specs[i] in specs;
      ShownIsClean(specs[i]);
    }
    JoinIsClean(ShowAll(specs));
  }

  // ----- families with one subject -----

  function Tail(payload: string): string {
    if payload == "" then "" else " " + payload
  }

  function ShowSubject(marker: string, subject: string, payload: string): string {
    marker + ShowScope(if subject == "" then [] else [subject]) + Tail(payload)
  }

  /** What a line of such a family reads as: no subject or a whole segment, and
      a payload without spaces around it. */
  lemma SubjectIsWhole(line: string, marker: string)
    requires StripScope(line, marker).Some?
    ensures StripScope(line, marker).value.0 == "" || Segment(StripScope(line, marker).value.0)
    ensures Trimmed(StripScope(line, marker).value.1)
  {
    hide TrimSpace, Segment;
    var rest := line[|marker|..];
    TrimSpaceIsTrimmed(rest);
    TrimSpaceIsTrimmed("");
    if rest != "" && rest[0] == '[' {
      SegmentsAreWhole(rest);
      PayloadIsTrimmed(rest);
      var chain := StripChain(line, marker).value.0;
      assert chain != [] ==> chain[0] in chain;
    }
  }

  lemma {:induction false} PayloadIsTrimmed(rest: string)
    requires Segments(rest).Some?
    ensures Trimmed(Segments(rest).value.1)
    decreases |rest|
  {
    hide TrimSpace;
    if rest != [] && rest[0] == '[' {
      PayloadIsTrimmed(rest[IndexChar(rest, ']').value + 1..]);
    } else {
      TrimSpaceIsTrimmed(rest);
    }
  }

  /** For any marker, a subject and a payload survive being written and read
      exactly when the subject is absent or a whole segment and the payload has
      no spaces around it. */
  lemma SubjectReadsBackIff(marker: string, subject: string, payload: string)
    ensures StripScope(ShowSubject(marker, subject, payload), marker) == Some((subject, payload))
      <==> (subject == "" || Segment(subject)) && Trimmed(payload)
  {
    hide TrimSpace, Segment, StripChain;
    var line := ShowSubject(marker, subject, payload);
    if StripScope(line, marker) == Some((subject, payload)) {
      SubjectIsWhole(line, marker);
    }
    if (subject == "" || Segment(subject)) && Trimmed(payload) {
      ChainReadsBack(marker, if subject == "" then [] else [subject], Tail(payload));
      TrimSpaceIsTrimmed(payload);
      if payload != "" {
        TrimAfterSpace(payload);
      }
    }
  }

  /** A chain of two or more segments is refused, whatever follows it. */
  lemma LongChainRefused(marker: string, scope: seq<string>, payload: string)
    requires |scope| > 1 && forall x | x in scope :: Segment(x)
    ensures StripScope(marker + ShowScope(scope) + Tail(payload), marker) == None
  {
    hide TrimSpace, Segment, StripChain;
    ChainReadsBack(marker, scope, Tail(payload));
  }

  // ----- the parser as it runs -----

  method StripMarkerScopeChain(line: string, marker: string) returns (chain: seq<string>, payload: string, ok: bool)
    ensures ok <==> StripChain(line, marker).Some?
    ensures ok ==> StripChain(line, marker).value == (chain, payload)
  {
    chain, payload, ok := [], "", false;
    if line == marker {
      ok := true;
      return;
    }
    if !(marker <= line) {
      return;
    }
    var rest := line[|marker|..];
    if rest == "" {
      ok := true;
      return;
    }
    if rest[0] == ' ' || rest[0] == '\t' {
      payload, ok := TrimSpace(rest), true;
      return;
    }
    if rest[0] != '[' {
      return;
    }
    chain, payload, ok := TakeSegments(rest);
  }

  /** Consumes `[X]` after `[X]`. */
  method TakeSegments(start: string) returns (chain: seq<string>, payload: string, ok: bool)
    ensures ok <==> Segments(start).Some?
    ensures ok ==> Segments(start).value.0 == chain && Segments(start).value.1 == payload
  {
    hide Segments, TrimSpace;
    chain, payload, ok := [], "", false;
    var rest := start;
    while rest != [] && rest[0] == '['
      invariant Segments(start).Some? <==> Segments(rest).Some?
      invariant Segments(rest).Some? ==> Segments(start).value.0 == chain + Segments(rest).value.0
      invariant Segments(rest).Some? ==> Segments(start).value.1 == Segments(rest).value.1
      decreases |rest|
    {
      var close := IndexChar(rest, ']');
      if close.None? {
        SegmentsOpen(rest);
        return;
      }
      SegmentsStep(rest, close.value);
      var segment := TrimSpace(rest[1..close.value]);
      if segment == "" {
        return;
      }
      chain := chain + [segment];
      rest := rest[close.value + 1..];
    }
    SegmentsEnd(rest);
    payload, ok := TrimSpace(rest), true;
  }

  lemma SegmentsOpen(rest: string)
    requires rest != [] && rest[0] == '[' && IndexChar(rest, ']').None?
    ensures Segments(rest).None?
  {
  }

  method ParseEmitMarkerLine(line: string) returns (m: MarkerLine)
    ensures m == ParseLine(line)
  {
    hide StripChain, TrimInlineComment, ParseSpec, TrimSpace, Split;
    var chain, payload, ok := StripMarkerScopeChain(line, MARKER);
    if !ok {
      return Absent;
    }
    var body := TrimInlineComment(payload);
    if body == "" {
      return Present(chain, []);
    }
    var specs := ParseEntries(Split(body, ','));
    return Present(chain, if specs.None? then [] else specs.value);
  }

  method ParseEntries(parts: seq<string>) returns (specs: Option<seq<EmitSpec>>)
    ensures specs == ParseSpecs(parts)
  {
    hide ParseSpec, TrimSpace;
    var out: seq<EmitSpec> := [];
    for i := 0 to |parts|
      invariant ParseSpecs(parts[..i]) == Some(out)
    {
      assert parts[..i + 1][..i] == parts[..i];
      var entry := TrimSpace(parts[i]);
      if entry == "" {
        continue;
      }
      var spec := ParseSpec(entry);
      if spec.None? {
        MalformedSpoils(parts, i + 1);
        return None;
      }
      out := out + [spec.value];
    }
    assert parts[..|parts|] == parts;
    return Some(out);
  }

  lemma {:induction false} MalformedSpoils(parts: seq<string>, n: nat)
    requires n <= |parts| && ParseSpecs(parts[..n]).None?
    ensures ParseSpecs(parts).None?
    decreases |parts|
  {
    if n == |parts| {
      assert parts[..n] == parts;
    } else {
      var shorter := parts[..|parts| - 1];
      assert shorter[..n] == parts[..n];
      MalformedSpoils(shorter, n);
    }
  }
}
