/** The SVG path reader of app/utils/svgPathParser.ts: the path string is normalised
    (command letters padded with spaces, commas made spaces, whitespace runs collapsed,
    the ends trimmed) and split on single spaces; a cursor then walks the tokens, each
    command moving the pen and pushing the pen position. Numbers are JavaScript numbers,
    so a missing or unreadable argument gives NaN, which then spreads through `+=`. */
module SvgPath {
  import opened Js

  // ---------------------------------------------------------------- characters

  /** The letters the normalisation pads: `[MmLlHhVvCcSsZz]`. */
  predicate IsCommand(c: char)
  {
    c == 'M' || c == 'm' || c == 'L' || c == 'l' || c == 'H' || c == 'h' || c == 'V' || c == 'v'
    || c == 'C' || c == 'c' || c == 'S' || c == 's' || c == 'Z' || c == 'z'
  }

  /** JavaScript's `\s`, which is also the set `trim` removes: tab, line feed, vertical tab,
      form feed, carriage return, space, no-break space, the byte-order mark, line and
      paragraph separators and the other Unicode space separators. */
  predicate IsSpace(c: char)
  {
    ('\t' <= c <= '\r') || c == ' ' || c == '\U{A0}' || c == '\U{1680}' || ('\U{2000}' <= c <= '\U{200A}')
    || c == '\U{2028}' || c == '\U{2029}' || c == '\U{202F}' || c == '\U{205F}' || c == '\U{3000}'
    || c == '\U{FEFF}'
  }

  // ---------------------------------------------------------------- normalisation

  /** `.replace(/([MmLlHhVvCcSsZz])/g, ' $1 ')`: a space on each side of every command letter. */
  function PadCommands(s: string): string
  {
    if s == [] then []
    else (if IsCommand(s[0]) then [' ', s[0], ' '] else [s[0]]) + PadCommands(s[1..])
  }

  /** `.replace(/,/g, ' ')`. */
  function CommasToSpaces(s: string): (r: string)
    ensures |r| == |s|
    ensures forall j :: 0 <= j < |s| ==> r[j] == if s[j] == ',' then ' ' else s[j]
  {
    seq(|s|, j requires 0 <= j < |s| => if s[j] == ',' then ' ' else s[j])
  }

  /** `s` without its leading whitespace. */
  function DropLeadingSpaces(s: string): (r: string)
    ensures |r| <= |s|
  {
    if s != [] && IsSpace(s[0]) then DropLeadingSpaces(s[1..]) else s
  }

  /** `s` without its trailing whitespace. */
  function DropTrailingSpaces(s: string): (r: string)
    ensures |r| <= |s|
  {
    if s != [] && IsSpace(s[|s| - 1]) then DropTrailingSpaces(s[..|s| - 1]) else s
  }

  /** Dropping leading whitespace leaves a suffix that starts with something else. */
  lemma {:induction false} LeadingDropIsSuffix(s: string)
    ensures DropLeadingSpaces(s) == s[|s| - |DropLeadingSpaces(s)|..]
    ensures DropLeadingSpaces(s) != [] ==> !IsSpace(DropLeadingSpaces(s)[0])
  {
    if s != [] && IsSpace(s[0]) {
      LeadingDropIsSuffix(s[1..]);
    }
  }

  /** Dropping trailing whitespace leaves a prefix that ends with something else. */
  lemma {:induction false} TrailingDropIsPrefix(s: string)
    ensures DropTrailingSpaces(s) == s[..|DropTrailingSpaces(s)|]
    ensures DropTrailingSpaces(s) != [] ==> !IsSpace(DropTrailingSpaces(s)[|DropTrailingSpaces(s)| - 1])
  {
    if s != [] && IsSpace(s[|s| - 1]) {
      var shorter := s[..|s| - 1];
      TrailingDropIsPrefix(shorter);
      var r := DropTrailingSpaces(shorter);
      assert DropTrailingSpaces(s) == r;
      assert r == shorter[..|r|] == s[..|r|];
    }
  }

  /** `.replace(/\s+/g, ' ')`: every maximal run of whitespace becomes one space. */
  function CollapseSpaces(s: string): string
    decreases |s|
  {
    if s == [] then []
    else if IsSpace(s[0]) then [' '] + CollapseSpaces(DropLeadingSpaces(s[1..]))
    else [s[0]] + CollapseSpaces(s[1..])
  }

  /** `.trim()`. */
  function Trim(s: string): string
  {
    DropTrailingSpaces(DropLeadingSpaces(s))
  }

  /** The normalised path string. */
  function Normalize(pathString: string): string
  {
    Trim(CollapseSpaces(CommasToSpaces(PadCommands(pathString))))
  }

  /** `normalized.split(' ')`. */
  function Tokenize(pathString: string): seq<string>
  {
    Split(Normalize(pathString), ' ')
  }

  // ---------------------------------------------------------------- what the tokens look like

  /** Every command letter has whitespace, or an end of the string, on each side. */
  predicate Isolated(s: string)
  {
    forall j :: 0 <= j < |s| && IsCommand(s[j]) ==>
      (j == 0 || IsSpace(s[j - 1])) && (j == |s| - 1 || IsSpace(s[j + 1]))
  }

  /** No comma. */
  predicate NoComma(s: string)
  {
    forall j :: 0 <= j < |s| ==> s[j] != ','
  }

  /** No comma, and no whitespace but the plain space. */
  predicate Plain(s: string)
  {
    forall j :: 0 <= j < |s| ==> s[j] != ',' && (IsSpace(s[j]) ==> s[j] == ' ')
  }

  /** A token as the command loop sees it: no comma, no whitespace, and a command letter
      only as the whole token. */
  predicate CleanToken(t: string)
  {
    forall j :: 0 <= j < |t| ==> t[j] != ',' && !IsSpace(t[j]) && (IsCommand(t[j]) ==> t == [t[j]])
  }

  /** Padding puts a space on each side of every command letter, and never starts with one. */
  lemma {:induction false} PadIsolates(s: string)
    ensures Isolated(PadCommands(s))
    ensures PadCommands(s) != [] ==> !IsCommand(PadCommands(s)[0])
  {
    if s != [] {
      var head: string := if IsCommand(s[0]) then [' ', s[0], ' '] else [s[0]];
      var tail := PadCommands(s[1..]);
      PadIsolates(s[1..]);
      var r := head + tail;
      assert PadCommands(s) == r;
      forall j | 0 <= j < |r| && IsCommand(r[j])
        ensures (j == 0 || IsSpace(r[j - 1])) && (j == |r| - 1 || IsSpace(r[j + 1]))
      {
        if j >= |head| {
          assert r[j] == tail[j - |head|];
          if j > |head| {
            assert r[j - 1] == tail[j - |head| - 1];
          }
          if j < |r| - 1 {
            assert r[j + 1] == tail[j - |head| + 1];
          }
        }
      }
    }
  }

  /** Turning commas into spaces keeps the letters isolated and leaves no comma. */
  lemma CommasKeepIsolation(s: string)
    requires Isolated(s)
    ensures Isolated(CommasToSpaces(s))
    ensures NoComma(CommasToSpaces(s))
  {
  }

  lemma IsolatedSlice(s: string, a: nat, b: nat)
    requires Isolated(s) && a <= b <= |s|
    ensures Isolated(s[a..b])
  {
    var t := s[a..b];
    forall j | 0 <= j < |t| && IsCommand(t[j])
      ensures (j == 0 || IsSpace(t[j - 1])) && (j == |t| - 1 || IsSpace(t[j + 1]))
    {
      assert t[j] == s[a + j];
    }
  }

  lemma LetterFollowsSpace(s: string, j: nat)
    requires Isolated(s) && 0 < j < |s|
    ensures IsCommand(s[j]) ==> IsSpace(s[j - 1])
  {
  }

  /** A space in front keeps the letters isolated and the string plain. */
  lemma PrependSpace(tail: string)
    requires Isolated(tail) && Plain(tail)
    ensures Isolated([' '] + tail) && Plain([' '] + tail)
  {
    var r := [' '] + tail;
    forall j | 0 <= j < |r| && IsCommand(r[j])
      ensures (j == 0 || IsSpace(r[j - 1])) && (j == |r| - 1 || IsSpace(r[j + 1]))
    {
      assert r[j] == tail[j - 1];
      if j > 1 {
        assert r[j - 1] == tail[j - 2];
      }
    }
  }

  /** A plain character in front keeps the letters isolated when it is not a letter that
      touches the tail, and the tail does not start with a letter. */
  lemma PrependPlain(c: char, tail: string)
    requires Isolated(tail) && Plain(tail)
    requires c != ',' && !IsSpace(c)
    requires IsCommand(c) ==> tail == [] || tail[0] == ' '
    requires tail != [] ==> !IsCommand(tail[0])
    ensures Isolated([c] + tail) && Plain([c] + tail)
  {
    var r := [c] + tail;
    forall j | 0 <= j < |r| && IsCommand(r[j])
      ensures (j == 0 || IsSpace(r[j - 1])) && (j == |r| - 1 || IsSpace(r[j + 1]))
    {
      if j > 0 {
        assert r[j] == tail[j - 1];
        assert r[j - 1] == tail[j - 2];
      }
    }
  }

  /** Collapsing keeps the letters isolated, leaves the plain space as the only whitespace,
      and starts with a space exactly when its input starts with whitespace. */
  lemma {:induction false} CollapseKeepsIsolation(s: string)
    requires Isolated(s) && NoComma(s)
    ensures Isolated(CollapseSpaces(s)) && Plain(CollapseSpaces(s))
    ensures s != [] ==>
      CollapseSpaces(s) != [] && CollapseSpaces(s)[0] == if IsSpace(s[0]) then ' ' else s[0]
    decreases |s|
  {
    if s != [] {
      var r := CollapseSpaces(s);
      if IsSpace(s[0]) {
        assert Isolated(r) && Plain(r) && r[0] == ' ' by {
          var d := DropLeadingSpaces(s[1..]);
          LeadingDropIsSuffix(s[1..]);
          var k := |s| - |d|;
          assert d == s[k..];
          IsolatedSlice(s, k, |s|);
          assert NoComma(d) by {
            assert forall j :: 0 <= j < |d| ==> d[j] == s[k + j];
          }
          CollapseKeepsIsolation(d);
          PrependSpace(CollapseSpaces(d));
          assert r == [' '] + CollapseSpaces(d);
        }
      } else {
        assert Isolated(r) && Plain(r) && r[0] == s[0] by {
          IsolatedSlice(s, 1, |s|);
          CollapseKeepsIsolation(s[1..]);
          var tail := CollapseSpaces(s[1..]);
          if |s| > 1 {
            LetterFollowsSpace(s, 1);
          }
          PrependPlain(s[0], tail);
          assert r == [s[0]] + tail;
        }
      }
    }
  }

  /** Trimming cuts a slice, which keeps both properties. */
  lemma TrimKeepsIsolation(s: string)
    requires Isolated(s) && Plain(s)
    ensures Isolated(Trim(s)) && Plain(Trim(s))
  {
    var d := DropLeadingSpaces(s);
    LeadingDropIsSuffix(s);
    var k := |s| - |d|;
    var t := Trim(s);
    TrailingDropIsPrefix(d);
    assert d == s[k..];
    assert t == d[..|t|] == s[k..k + |t|];
    IsolatedSlice(s, k, k + |t|);
    assert forall j :: 0 <= j < |t| ==> t[j] == s[k + j];
  }

  /** Splitting a string of isolated letters with no other whitespace than the space gives
      clean tokens. */
  lemma {:induction false} SplitGivesCleanTokens(s: string)
    requires Isolated(s) && Plain(s)
    ensures forall k :: 0 <= k < |Split(s, ' ')| ==> CleanToken(Split(s, ' ')[k])
  {
    if s != [] {
      IsolatedSlice(s, 1, |s|);
      SplitGivesCleanTokens(s[1..]);
      var rest := Split(s[1..], ' ');
      if s[0] != ' ' {
        var first := [s[0]] + rest[0];
        assert Split(s, ' ') == [first] + rest[1..];
        if |s| > 1 {
          if s[1] == ' ' {
            assert rest[0] == "";
          } else {
            assert rest[0] != [] && rest[0][0] == s[1];
          }
        } else {
          assert rest == [""];
        }
        forall j | 0 <= j < |first|
          ensures first[j] != ',' && !IsSpace(first[j]) && (IsCommand(first[j]) ==> first == [first[j]])
        {
          if j == 0 {
            if IsCommand(s[0]) && |s| > 1 {
              assert IsSpace(s[1]);
            }
          } else {
            assert first[j] == rest[0][j - 1];
          }
        }
      }
    }
  }

  /** The tokens the command loop walks: commas and whitespace have become separators, and
      every command letter stands alone as its own token. */
  lemma TokensAreClean(pathString: string)
    ensures forall k :: 0 <= k < |Tokenize(pathString)| ==> CleanToken(Tokenize(pathString)[k])
  {
    var padded := PadCommands(pathString);
    PadIsolates(pathString);
    var plain := CommasToSpaces(padded);
    CommasKeepIsolation(padded);
    CollapseKeepsIsolation(plain);
    TrimKeepsIsolation(CollapseSpaces(plain));
    SplitGivesCleanTokens(Normalize(pathString));
  }

  // ---------------------------------------------------------------- numbers and points

  /** A JavaScript number as the reader produces it: a value, or NaN. */
  datatype Number = Num(value: real) | NaN

  /** `+` on numbers: NaN absorbs. */
  function Plus(a: Number, b: Number): (r: Number)
    ensures r.Num? <==> a.Num? && b.Num?
    ensures r.Num? ==> r.value == a.value + b.value
  {
    if a.Num? && b.Num? then Num(a.value + b.value) else NaN
  }

  datatype Point = Point(x: Number, y: Number)

  /** `parseFloat(tokens[k])`: past the end the token is `undefined`, which reads as NaN. */
  function ReadNumber(tokens: seq<string>, k: nat, parseFloat: string -> Number): Number
  {
    if k < |tokens| then parseFloat(tokens[k]) else NaN
  }

  // ---------------------------------------------------------------- the command loop

  /** What the command at the cursor does: where the cursor goes next (after the loop's own
      `i++`), the new pen position, and whether that position is pushed. */
  datatype Move = Move(next: nat, x: Number, y: Number, draws: bool)

  /** The cursor offsets, from the command token, at which C/c and S/s read their endpoint's
      x. The source skips 4 and 2 tokens. */
  const CUBIC_SKIP: nat := 4
  const SMOOTH_SKIP: nat := 2
  /** SVG's own argument lists, `x1 y1 x2 y2 x y` and `x2 y2 x y`, put the endpoint's x
      after 5 and 3 tokens. */
  const CUBIC_SKIP_INTENDED: nat := 5
  const SMOOTH_SKIP_INTENDED: nat := 3

  /** One turn of the switch, with the endpoint of C/c read `cubicSkip` and of S/s read
      `smoothSkip` tokens after the command. */
  function StepWith(tokens: seq<string>, i: nat, x: Number, y: Number, parseFloat: string -> Number,
                    cubicSkip: nat, smoothSkip: nat): (m: Move)
    requires i < |tokens|
    ensures m.next > i
  {
    var command := tokens[i];
    if command == "M" || command == "L" then
      Move(i + 3, ReadNumber(tokens, i + 1, parseFloat), ReadNumber(tokens, i + 2, parseFloat), true)
    else if command == "m" || command == "l" then
      Move(i + 3, Plus(x, ReadNumber(tokens, i + 1, parseFloat)), Plus(y, ReadNumber(tokens, i + 2, parseFloat)), true)
    else if command == "H" then
      Move(i + 2, ReadNumber(tokens, i + 1, parseFloat), y, true)
    else if command == "h" then
      Move(i + 2, Plus(x, ReadNumber(tokens, i + 1, parseFloat)), y, true)
    else if command == "V" then
      Move(i + 2, x, ReadNumber(tokens, i + 1, parseFloat), true)
    else if command == "v" then
      Move(i + 2, x, Plus(y, ReadNumber(tokens, i + 1, parseFloat)), true)
    else if command == "C" then
      Move(i + cubicSkip + 2, ReadNumber(tokens, i + cubicSkip, parseFloat),
           ReadNumber(tokens, i + cubicSkip + 1, parseFloat), true)
    else if command == "c" then
      Move(i + cubicSkip + 2, Plus(x, ReadNumber(tokens, i + cubicSkip, parseFloat)),
           Plus(y, ReadNumber(tokens, i + cubicSkip + 1, parseFloat)), true)
    else if command == "S" then
      Move(i + smoothSkip + 2, ReadNumber(tokens, i + smoothSkip, parseFloat),
           ReadNumber(tokens, i + smoothSkip + 1, parseFloat), true)
    else if command == "s" then
      Move(i + smoothSkip + 2, Plus(x, ReadNumber(tokens, i + smoothSkip, parseFloat)),
           Plus(y, ReadNumber(tokens, i + smoothSkip + 1, parseFloat)), true)
    else
      Move(i + 1, x, y, false)
  }

  /** The switch as the source writes it. */
  function Step(tokens: seq<string>, i: nat, x: Number, y: Number, parseFloat: string -> Number): (m: Move)
    requires i < |tokens|
    ensures m.next > i
  {
    StepWith(tokens, i, x, y, parseFloat, CUBIC_SKIP, SMOOTH_SKIP)
  }

  /** The switch with the curve endpoints read where SVG puts them. */
  function StepIntended(tokens: seq<string>, i: nat, x: Number, y: Number, parseFloat: string -> Number): (m: Move)
    requires i < |tokens|
    ensures m.next > i
  {
    StepWith(tokens, i, x, y, parseFloat, CUBIC_SKIP_INTENDED, SMOOTH_SKIP_INTENDED)
  }

  /** The points the loop pushes from cursor i and pen (x, y) on. */
  function RunWith(tokens: seq<string>, i: nat, x: Number, y: Number, parseFloat: string -> Number,
                   cubicSkip: nat, smoothSkip: nat): seq<Point>
    decreases |tokens| - i
  {
    if i >= |tokens| then []
    else
      var m := StepWith(tokens, i, x, y, parseFloat, cubicSkip, smoothSkip);
      (if m.draws then [Point(m.x, m.y)] else [])
        + RunWith(tokens, m.next, m.x, m.y, parseFloat, cubicSkip, smoothSkip)
  }

  function Run(tokens: seq<string>, i: nat, x: Number, y: Number, parseFloat: string -> Number): seq<Point>
  {
    RunWith(tokens, i, x, y, parseFloat, CUBIC_SKIP, SMOOTH_SKIP)
  }

  function RunIntended(tokens: seq<string>, i: nat, x: Number, y: Number, parseFloat: string -> Number): seq<Point>
  {
    RunWith(tokens, i, x, y, parseFloat, CUBIC_SKIP_INTENDED, SMOOTH_SKIP_INTENDED)
  }

  /** `parseSVGPath` as a value: the loop from cursor 0 with the pen at (0, 0). */
  function Parse(pathString: string, parseFloat: string -> Number): seq<Point>
  {
    Run(Tokenize(pathString), 0, Num(0.0), Num(0.0), parseFloat)
  }

  /** The path read with the curve endpoints where SVG puts them: as many points at most
      as there are tokens, like the source's reading. */
  function ParseIntended(pathString: string, parseFloat: string -> Number): (points: seq<Point>)
    ensures |points| <= |Tokenize(pathString)|
  {
    RunBound(Tokenize(pathString), 0, Num(0.0), Num(0.0), parseFloat, CUBIC_SKIP_INTENDED, SMOOTH_SKIP_INTENDED);
    RunIntended(Tokenize(pathString), 0, Num(0.0), Num(0.0), parseFloat)
  }

  /** Each turn pushes at most one point and moves the cursor at least one token, so there
      are never more points than tokens left. */
  lemma {:induction false} RunBound(tokens: seq<string>, i: nat, x: Number, y: Number, parseFloat: string -> Number,
                                    cubicSkip: nat, smoothSkip: nat)
    ensures |RunWith(tokens, i, x, y, parseFloat, cubicSkip, smoothSkip)| <= if i < |tokens| then |tokens| - i else 0
    decreases |tokens| - i
  {
    if i < |tokens| {
      var m := StepWith(tokens, i, x, y, parseFloat, cubicSkip, smoothSkip);
      RunBound(tokens, m.next, m.x, m.y, parseFloat, cubicSkip, smoothSkip);
    }
  }

  /** The twelve tokens that push a point; anything else, `Z`, `z`, a stray number or the
      empty token, only moves the cursor on. */
  predicate Draws(token: string)
  {
    token in {"M", "L", "H", "V", "C", "S", "m", "l", "h", "v", "c", "s"}
  }

  /** The absolute counterpart of a relative command. */
  function Absolute(token: string): string
  {
    if token == "m" then "M" else if token == "l" then "L" else if token == "h" then "H"
    else if token == "v" then "V" else if token == "c" then "C" else if token == "s" then "S"
    else token
  }

  /** A turn pushes a point exactly for the drawing commands; any other token leaves the
      pen where it is and moves the cursor one token on. */
  lemma OnlyCommandsDraw(tokens: seq<string>, i: nat, x: Number, y: Number, parseFloat: string -> Number)
    requires i < |tokens|
    ensures Step(tokens, i, x, y, parseFloat).draws <==> Draws(tokens[i])
    ensures !Draws(tokens[i]) ==> Step(tokens, i, x, y, parseFloat) == Move(i + 1, x, y, false)
  {
  }

  /** Absolute commands do not depend on the pen; `H` keeps the pen's y and `V` its x. */
  lemma AbsoluteIgnoresPen(tokens: seq<string>, i: nat, x: Number, y: Number, x': Number, y': Number,
                           parseFloat: string -> Number)
    requires i < |tokens|
    ensures tokens[i] in {"M", "L", "C", "S"} ==>
      Step(tokens, i, x, y, parseFloat) == Step(tokens, i, x', y', parseFloat)
    ensures tokens[i] == "H" ==>
      Step(tokens, i, x, y, parseFloat).x == Step(tokens, i, x', y', parseFloat).x
      && Step(tokens, i, x, y, parseFloat).y == y
    ensures tokens[i] == "V" ==>
      Step(tokens, i, x, y, parseFloat).y == Step(tokens, i, x', y', parseFloat).y
      && Step(tokens, i, x, y, parseFloat).x == x
  {
  }

  /** A relative command is its absolute counterpart read from the origin and shifted by
      the pen, over the same tokens. */
  lemma RelativeIsShiftedAbsolute(tokens: seq<string>, i: nat, x: Number, y: Number, parseFloat: string -> Number)
    requires i < |tokens| && tokens[i] in {"m", "l", "h", "v", "c", "s"}
    ensures var relative := Step(tokens, i, x, y, parseFloat);
      var absolute := Step(tokens[i := Absolute(tokens[i])], i, Num(0.0), Num(0.0), parseFloat);
      relative.next == absolute.next && relative.draws && absolute.draws
      && relative.x == Plus(x, absolute.x) && relative.y == Plus(y, absolute.y)
  {
    var swapped := tokens[i := Absolute(tokens[i])];
    assert forall k :: i < k ==> ReadNumber(swapped, k, parseFloat) == ReadNumber(tokens, k, parseFloat);
  }

  /** With the pen at the origin, a leading `m` with two numbers lands where `M` would. */
  lemma LeadingMoveIsAbsolute(tokens: seq<string>, parseFloat: string -> Number)
    requires |tokens| >= 3 && tokens[0] in {"m", "M"}
    requires parseFloat(tokens[1]).Num? && parseFloat(tokens[2]).Num?
    ensures Run(tokens, 0, Num(0.0), Num(0.0), parseFloat) != []
    ensures Run(tokens, 0, Num(0.0), Num(0.0), parseFloat)[0] == Point(parseFloat(tokens[1]), parseFloat(tokens[2]))
  {
    RunUnfolds(tokens, 0, Num(0.0), Num(0.0), parseFloat);
  }

  /** Read where SVG puts them, the endpoint of a `C`/`c` (after two control points) or an
      `S`/`s` (after one) is the last pair of its arguments, and the cursor lands on the
      token after the segment. */
  lemma IntendedReadsEndpoint(prefix: seq<string>, command: string, arguments: seq<string>, rest: seq<string>,
                              x: Number, y: Number, parseFloat: string -> Number)
    requires command in {"C", "c", "S", "s"}
    requires |arguments| == if command in {"C", "c"} then 6 else 4
    ensures var tokens := prefix + [command] + arguments + rest;
      var m := StepIntended(tokens, |prefix|, x, y, parseFloat);
      var endX := parseFloat(arguments[|arguments| - 2]);
      var endY := parseFloat(arguments[|arguments| - 1]);
      m.next == |prefix| + 1 + |arguments| && m.draws
      && m.x == (if command in {"C", "S"} then endX else Plus(x, endX))
      && m.y == (if command in {"C", "S"} then endY else Plus(y, endY))
  {
    var tokens := prefix + [command] + arguments + rest;
    assert forall k :: 0 <= k < |arguments| ==> tokens[|prefix| + 1 + k] == arguments[k];
  }

  /** As written, the same segment yields the pair one token early, the last control
      coordinate with the endpoint's x, and the cursor lands on the segment's last
      argument, which the next turn takes for a command. */
  lemma AsWrittenMisreadsEndpoint(prefix: seq<string>, command: string, arguments: seq<string>, rest: seq<string>,
                                  x: Number, y: Number, parseFloat: string -> Number)
    requires command in {"C", "c", "S", "s"}
    requires |arguments| == if command in {"C", "c"} then 6 else 4
    ensures var tokens := prefix + [command] + arguments + rest;
      var m := Step(tokens, |prefix|, x, y, parseFloat);
      var readX := parseFloat(arguments[|arguments| - 3]);
      var readY := parseFloat(arguments[|arguments| - 2]);
      m.next == |prefix| + |arguments| && m.draws
      && m.x == (if command in {"C", "S"} then readX else Plus(x, readX))
      && m.y == (if command in {"C", "S"} then readY else Plus(y, readY))
  {
    var tokens := prefix + [command] + arguments + rest;
    assert forall k :: 0 <= k < |arguments| ==> tokens[|prefix| + 1 + k] == arguments[k];
  }

  /** `M 0 0 C 1 2 3 4 5 6`: the curve ends at (5, 6), the source pushes (4, 5). */
  lemma CubicEndpointMisread(parseFloat: string -> Number)
    requires parseFloat("0") == Num(0.0) && parseFloat("1") == Num(1.0) && parseFloat("2") == Num(2.0)
    requires parseFloat("3") == Num(3.0) && parseFloat("4") == Num(4.0) && parseFloat("5") == Num(5.0)
    requires parseFloat("6") == Num(6.0)
    ensures var tokens := ["M", "0", "0", "C", "1", "2", "3", "4", "5", "6"];
      Run(tokens, 0, Num(0.0), Num(0.0), parseFloat) == [Point(Num(0.0), Num(0.0)), Point(Num(4.0), Num(5.0))]
      && RunIntended(tokens, 0, Num(0.0), Num(0.0), parseFloat) == [Point(Num(0.0), Num(0.0)), Point(Num(5.0), Num(6.0))]
  {
    var tokens := ["M", "0", "0", "C", "1", "2", "3", "4", "5", "6"];
    var zero := Num(0.0);
    assert tokens[0] == "M" && tokens[3] == "C" && tokens[9] == "6";
    assert Step(tokens, 0, zero, zero, parseFloat) == Move(3, zero, zero, true);
    assert Run(tokens, 0, zero, zero, parseFloat) == [Point(zero, zero), Point(Num(4.0), Num(5.0))] by {
      assert Step(tokens, 9, Num(4.0), Num(5.0), parseFloat) == Move(10, Num(4.0), Num(5.0), false);
      assert Run(tokens, 9, Num(4.0), Num(5.0), parseFloat) == [];
      assert Step(tokens, 3, zero, zero, parseFloat) == Move(9, Num(4.0), Num(5.0), true);
      assert Run(tokens, 3, zero, zero, parseFloat) == [Point(Num(4.0), Num(5.0))];
    }
    assert RunIntended(tokens, 0, zero, zero, parseFloat) == [Point(zero, zero), Point(Num(5.0), Num(6.0))] by {
      assert StepIntended(tokens, 0, zero, zero, parseFloat) == Move(3, zero, zero, true);
      assert RunIntended(tokens, 10, Num(5.0), Num(6.0), parseFloat) == [];
      assert StepIntended(tokens, 3, zero, zero, parseFloat) == Move(10, Num(5.0), Num(6.0), true);
      assert RunIntended(tokens, 3, zero, zero, parseFloat) == [Point(Num(5.0), Num(6.0))];
    }
  }

  /** `M 0 0 S 1 2 3 4`: the curve ends at (3, 4), the source pushes (2, 3). */
  lemma SmoothEndpointMisread(parseFloat: string -> Number)
    requires parseFloat("0") == Num(0.0) && parseFloat("1") == Num(1.0) && parseFloat("2") == Num(2.0)
    requires parseFloat("3") == Num(3.0) && parseFloat("4") == Num(4.0)
    ensures var tokens := ["M", "0", "0", "S", "1", "2", "3", "4"];
      Run(tokens, 0, Num(0.0), Num(0.0), parseFloat) == [Point(Num(0.0), Num(0.0)), Point(Num(2.0), Num(3.0))]
      && RunIntended(tokens, 0, Num(0.0), Num(0.0), parseFloat) == [Point(Num(0.0), Num(0.0)), Point(Num(3.0), Num(4.0))]
  {
    var tokens := ["M", "0", "0", "S", "1", "2", "3", "4"];
    var zero := Num(0.0);
    assert tokens[0] == "M" && tokens[3] == "S" && tokens[7] == "4";
    assert Step(tokens, 0, zero, zero, parseFloat) == Move(3, zero, zero, true);
    assert Run(tokens, 0, zero, zero, parseFloat) == [Point(zero, zero), Point(Num(2.0), Num(3.0))] by {
      assert Step(tokens, 7, Num(2.0), Num(3.0), parseFloat) == Move(8, Num(2.0), Num(3.0), false);
      assert Run(tokens, 7, Num(2.0), Num(3.0), parseFloat) == [];
      assert Step(tokens, 3, zero, zero, parseFloat) == Move(7, Num(2.0), Num(3.0), true);
      assert Run(tokens, 3, zero, zero, parseFloat) == [Point(Num(2.0), Num(3.0))];
    }
    assert RunIntended(tokens, 0, zero, zero, parseFloat) == [Point(zero, zero), Point(Num(3.0), Num(4.0))] by {
      assert StepIntended(tokens, 0, zero, zero, parseFloat) == Move(3, zero, zero, true);
      assert RunIntended(tokens, 8, Num(3.0), Num(4.0), parseFloat) == [];
      assert StepIntended(tokens, 3, zero, zero, parseFloat) == Move(8, Num(3.0), Num(4.0), true);
      assert RunIntended(tokens, 3, zero, zero, parseFloat) == [Point(Num(3.0), Num(4.0))];
    }
  }

  /** The run from a cursor inside the tokens is one turn followed by the run after it. */
  lemma RunUnfolds(tokens: seq<string>, i: nat, x: Number, y: Number, parseFloat: string -> Number)
    requires i < |tokens|
    ensures var m := Step(tokens, i, x, y, parseFloat);
      Run(tokens, i, x, y, parseFloat)
        == (if m.draws then [Point(m.x, m.y)] else []) + Run(tokens, m.next, m.x, m.y, parseFloat)
  {
  }

  /** One turn of the loop body: the switch on `tokens[i]` followed by `i++`. */
  method Turn(tokens: seq<string>, i: nat, currentX: Number, currentY: Number, parseFloat: string -> Number)
    returns (next: nat, x: Number, y: Number, pushed: seq<Point>)
    requires i < |tokens|
    ensures var m := Step(tokens, i, currentX, currentY, parseFloat);
      next == m.next && x == m.x && y == m.y && pushed == if m.draws then [Point(x, y)] else []
  {
    var command := tokens[i];
    next, x, y, pushed := i, currentX, currentY, [];
    if command == "M" || command == "L" {
      next := next + 1;
      x := ReadNumber(tokens, next, parseFloat);
      next := next + 1;
      y := ReadNumber(tokens, next, parseFloat);
      pushed := [Point(x, y)];
    } else if command == "m" || command == "l" {
      next := next + 1;
      x := Plus(x, ReadNumber(tokens, next, parseFloat));
      next := next + 1;
      y := Plus(y, ReadNumber(tokens, next, parseFloat));
      pushed := [Point(x, y)];
    } else if command == "H" {
      next := next + 1;
      x := ReadNumber(tokens, next, parseFloat);
      pushed := [Point(x, y)];
    } else if command == "h" {
      next := next + 1;
      x := Plus(x, ReadNumber(tokens, next, parseFloat));
      pushed := [Point(x, y)];
    } else if command == "V" {
      next := next + 1;
      y := ReadNumber(tokens, next, parseFloat);
      pushed := [Point(x, y)];
    } else if command == "v" {
      next := next + 1;
      y := Plus(y, ReadNumber(tokens, next, parseFloat));
      pushed := [Point(x, y)];
    } else if command == "C" {
      next := next + 4;
      x := ReadNumber(tokens, next, parseFloat);
      next := next + 1;
      y := ReadNumber(tokens, next, parseFloat);
      pushed := [Point(x, y)];
    } else if command == "c" {
      next := next + 4;
      x := Plus(x, ReadNumber(tokens, next, parseFloat));
      next := next + 1;
      y := Plus(y, ReadNumber(tokens, next, parseFloat));
      pushed := [Point(x, y)];
    } else if command == "S" {
      next := next + 2;
      x := ReadNumber(tokens, next, parseFloat);
      next := next + 1;
      y := ReadNumber(tokens, next, parseFloat);
      pushed := [Point(x, y)];
    } else if command == "s" {
      next := next + 2;
      x := Plus(x, ReadNumber(tokens, next, parseFloat));
      next := next + 1;
      y := Plus(y, ReadNumber(tokens, next, parseFloat));
      pushed := [Point(x, y)];
    }
    next := next + 1;
  }

  /** The loop of `parseSVGPath` over its tokens, with the pen starting at (0, 0). */
  method Walk(tokens: seq<string>, parseFloat: string -> Number) returns (points: seq<Point>)
    ensures points == Run(tokens, 0, Num(0.0), Num(0.0), parseFloat)
    ensures |points| <= |tokens|
  {
    ghost var all := Run(tokens, 0, Num(0.0), Num(0.0), parseFloat);
    points := [];
    var currentX, currentY := Num(0.0), Num(0.0);
    var i := 0;
    while i < |tokens|
      invariant points + Run(tokens, i, currentX, currentY, parseFloat) == all
      decreases |tokens| - i
    {
      RunUnfolds(tokens, i, currentX, currentY, parseFloat);
      var pushed;
      i, currentX, currentY, pushed := Turn(tokens, i, currentX, currentY, parseFloat);
      points := points + pushed;
    }
    RunBound(tokens, 0, Num(0.0), Num(0.0), parseFloat, CUBIC_SKIP, SMOOTH_SKIP);
  }

  /** `parseSVGPath`: normalise and split the path string, then walk the tokens, moving the
      pen and pushing its position for every drawing command; there are never more points
      than tokens. */
  method ParseSVGPath(pathString: string, parseFloat: string -> Number) returns (points: seq<Point>)
    ensures points == Parse(pathString, parseFloat)
    ensures |points| <= |Tokenize(pathString)|
  {
    var tokens := Tokenize(pathString);
    points := Walk(tokens, parseFloat);
  }
}
