/**
 * The G-code vocabulary of the rewriter: how a line is classified, how the
 * speed of a slicer `M106` is read, how a fan speed is encoded as a command,
 * the clamped target speed, and the text of the lines the rewriter writes.
 */
module Gcode {
  import opened Results
  import opened PyText
  import opened PyFloat

  // ---- Line classifiers (epfa.py:63-68), all anchored prefix tests ----

  predicate IsLayerChange(line: string) {
    StartsWith(line, ";LAYER_CHANGE") || StartsWith(line, ";LAYER:")
  }

  predicate IsFanSet(line: string) {
    StartsWith(line, "M106")
  }

  predicate IsFanStop(line: string) {
    StartsWith(line, "M107")
  }

  predicate IsTypeNote(line: string) {
    StartsWith(line, ";TYPE:")
  }

  lemma PrefixAt(s: string, prefix: string, i: nat)
    requires StartsWith(s, prefix) && i < |prefix|
    ensures s[i] == prefix[i]
  {
    assert s[..|prefix|][i] == s[i];
  }

  /** No line matches two of the four patterns. */
  lemma PatternsExclusive(line: string)
    ensures IsLayerChange(line) ==> !IsFanSet(line) && !IsFanStop(line) && !IsTypeNote(line)
    ensures IsFanSet(line) ==> !IsFanStop(line) && !IsTypeNote(line)
    ensures IsFanStop(line) ==> !IsTypeNote(line)
  {
    if StartsWith(line, ";LAYER_CHANGE") { PrefixAt(line, ";LAYER_CHANGE", 1); }
    if StartsWith(line, ";LAYER:") { PrefixAt(line, ";LAYER:", 1); }
    if IsFanSet(line) { PrefixAt(line, "M106", 0); PrefixAt(line, "M106", 3); }
    if IsFanStop(line) { PrefixAt(line, "M107", 0); }
  }

  // ---- The speed carried by a slicer M106 (epfa.py:88) ----

  /** Why `float(line.split('S')[1])` fails: no `S` at all, or no number after it. */
  datatype SpeedError = MissingS | NotANumber

  /**
   * The speed of a fan-set line: the text after its first `S`, up to the
   * next `S`, read as a number.
   */
  function FanSetSpeed(line: string): (r: Result<real, SpeedError>)
    ensures r == Err(MissingS) <==> 'S' !in line
    ensures 'S' in line ==> (r.Ok? <==> ParseFloat(SecondField(line, 'S').value).Some?)
    ensures r.Ok? ==> SecondField(line, 'S').Some? && ParseFloat(SecondField(line, 'S').value) == Some(r.value)
  {
    match SecondField(line, 'S')
    case None => Err(MissingS)
    case Some(field) =>
      match ParseFloat(field)
      case None => Err(NotANumber)
      case Some(v) => Ok(v)
  }

  /** With a single `S` in the line, the speed is the text after it, read as a number. */
  lemma FanSetSpeedOfField(head: string, field: string)
    requires 'S' !in head && 'S' !in field
    ensures FanSetSpeed(head + ['S'] + field) == match ParseFloat(field) case None => Err(NotANumber) case Some(v) => Ok(v)
  {
    assert head + ['S'] + field + [] == head + ['S'] + field;
    SecondFieldOf(head, 'S', field, []);
  }

  /** The usual slicer line `M106 S<n>` followed by whitespace yields the speed `n`. */
  lemma FanSetSpeedOfWholeNumber(n: nat, pad: string)
    requires AllSpace(pad)
    ensures FanSetSpeed("M106 S" + ShowNat(n) + pad) == Ok(n as real)
  {
    var rest := ShowNat(n) + pad;
    assert "M106 S" + ShowNat(n) + pad == "M106 " + ['S'] + rest;
    assert 'S' !in ShowNat(n) && 'S' !in pad;
    FanSetSpeedOfField("M106 ", rest);
    ParseShowNat(n, pad);
  }

  // ---- Fan commands (epfa.py:71) ----

  datatype FanCommand = SetSpeed(speed: real) | Stop

  /** `fan_gcode`: a positive speed is set with M106, anything else stops the fan with M107. */
  function FanGcode(x: real): (c: FanCommand)
    ensures c == Stop <==> x <= 0.0
    ensures c.SetSpeed? ==> c.speed == x
  {
    if x > 0.0 then SetSpeed(x) else Stop
  }

  // ---- The target speed (epfa.py:42-44) ----

  /**
   * A percentage scaled to the fan's native 0-255 range; values outside
   * 0-100 percent are clamped to the ends of the range, not rejected.
   */
  function TargetSpeed(percent: real): (r: real)
    ensures 0.0 <= r <= 255.0
    ensures 0.0 <= percent <= 100.0 ==> r == percent * 255.0 / 100.0
    ensures percent >= 100.0 ==> r == 255.0
    ensures percent <= 0.0 ==> r == 0.0
  {
    var scaled := percent * 255.0 / 100.0;
    var capped := if scaled <= 255.0 then scaled else 255.0;
    if capped >= 0.0 then capped else 0.0
  }

  // ---- Region annotations (epfa.py:64-65, 95, 98) ----

  /** `str.strip(line.split(':')[1])`: the region type named by a `;TYPE:` line. */
  function TypeName(line: string): (name: string)
    requires IsTypeNote(line)
    ensures ':' !in name
    ensures name == [] || (!IsSpace(name[0]) && !IsSpace(name[|name| - 1]))
  {
    PrefixAt(line, ";TYPE:", 5);
    var field := SecondField(line, ':').value;
    var name := Strip(field);
    assert ':' !in name by {
      var i := StripStart(field);
      forall j | 0 <= j < |name| ensures name[j] != ':' { assert name[j] == field[i + j]; }
    }
    name
  }

  /**
   * The parts of an annotation `;TYPE:<pre><name><post><rest>`: whitespace
   * `pre` and `post` around a `name` with no whitespace at its ends, none of
   * them holding a `:`, and a `rest` that is empty or opens a further
   * `:`-field.
   */
  predicate AnnotationParts(pre: string, name: string, post: string, rest: string) {
    AllSpace(pre) && AllSpace(post) &&
    ':' !in pre && ':' !in name && ':' !in post &&
    (name == [] || (!IsSpace(name[0]) && !IsSpace(name[|name| - 1]))) &&
    (rest == [] || rest[0] == ':')
  }

  /** The region name read from `;TYPE:<pre><name><post><rest>` is exactly `<name>`. */
  lemma TypeNameOfAnnotation(pre: string, name: string, post: string, rest: string)
    requires AnnotationParts(pre, name, post, rest)
    ensures IsTypeNote(";TYPE:" + pre + name + post + rest)
    ensures TypeName(";TYPE:" + pre + name + post + rest) == name
  {
    var line := ";TYPE:" + pre + name + post + rest;
    var field := pre + name + post;
    assert IsTypeNote(line) by {
      assert line[..6] == ";TYPE:";
    }
    assert SecondField(line, ':') == Some(field) by {
      assert line == ";TYPE" + [':'] + field + rest;
      SecondFieldOf(";TYPE", ':', field, rest);
    }
    StripPadded(pre, name, post);
  }

  lemma Regroup(a: string, b: string, c: string, d: string, e: string)
    ensures a + (b + c + d) + e == a + b + c + d + e
  {
  }

  /**
   * Every `;TYPE:` line splits into annotation parts, its region name being
   * the `name` part: with `TypeNameOfAnnotation`, this fixes the name of any
   * annotation.
   */
  lemma EveryTypeNoteSplits(line: string)
    requires IsTypeNote(line)
    ensures exists pre, name, post, rest ::
      AnnotationParts(pre, name, post, rest) && line == ";TYPE:" + pre + name + post + rest && TypeName(line) == name
  {
    var field, rest := TypeNoteFields(line);
    var i := StripStart(field);
    var name := Strip(field);
    var pre, post := field[..i], field[i + |name|..];
    StripParts(field);
    Regroup(";TYPE:", pre, name, post, rest);
    TypeNameOfAnnotation(pre, name, post, rest);
  }

  /** A `;TYPE:` line is the prefix, its second `:`-field, and what follows that field. */
  lemma TypeNoteFields(line: string) returns (field: string, rest: string)
    requires IsTypeNote(line)
    ensures SecondField(line, ':') == Some(field)
    ensures line == ";TYPE:" + field + rest && (rest == [] || rest[0] == ':')
  {
    PrefixAt(line, ";TYPE:", 5);
    assert IndexOf(line, ':') == 5 by {
      assert line[..5] == ";TYPE" by { assert line[..6][..5] == line[..5]; }
      IndexOfAt(line, ':', 5);
    }
    field := SecondField(line, ':').value;
    var end := 6 + |field|;
    assert end <= |line| && line[6..end] == field;
    rest := line[end..];
    assert rest == [] || rest[0] == ':' by {
      assert end == |line| || line[end] == ':';
    }
    assert line == line[..6] + line[6..end] + rest;
    assert line[..6] == ";TYPE:";
  }

  /** A field with no `:` is its stripped text with the whitespace cut off on either side. */
  lemma StripParts(field: string)
    requires ':' !in field
    ensures var i := StripStart(field); var name := Strip(field);
      field == field[..i] + name + field[i + |name|..] &&
      AnnotationParts(field[..i], name, field[i + |name|..], [])
  {
    var i := StripStart(field);
    var name := Strip(field);
    var pre, post := field[..i], field[i + |name|..];
    assert field == pre + name + post;
    assert ':' !in name by {
      assert forall m :: 0 <= m < |name| ==> name[m] == field[i + m];
    }
    assert ':' !in pre by {
      assert forall m :: 0 <= m < |pre| ==> pre[m] == field[m];
    }
    assert ':' !in post by {
      assert forall m :: 0 <= m < |post| ==> post[m] == field[i + |name| + m];
    }
  }

  // ---- The line classifier (epfa.py:84-95) ----

  /** A line's kind, with what the rewriter reads from it: the speed of a fan-set line, the type named by an annotation. */
  datatype LineKind = LayerChange | FanSet(speed: Result<real, SpeedError>) | FanStop | TypeNote(name: string) | Other

  /**
   * The kind of a line, tested in the order of the rewriter's `elif` chain.
   * The four prefixes exclude one another, so each kind holds exactly when
   * its own pattern matches: the order of the tests does not matter.
   */
  function Classify(line: string): (k: LineKind)
    ensures k.LayerChange? <==> IsLayerChange(line)
    ensures k.FanSet? <==> IsFanSet(line)
    ensures k.FanStop? <==> IsFanStop(line)
    ensures k.TypeNote? <==> IsTypeNote(line)
    ensures k.FanSet? ==> k.speed == FanSetSpeed(line)
    ensures k.TypeNote? ==> k.name == TypeName(line)
  {
    PatternsExclusive(line);
    if IsLayerChange(line) then LayerChange
    else if IsFanSet(line) then FanSet(FanSetSpeed(line))
    else if IsFanStop(line) then FanStop
    else if IsTypeNote(line) then TypeNote(TypeName(line))
    else Other
  }

  /** The outer-perimeter region in PrusaSlicer's and in Cura's spelling. */
  predicate IsOuterType(name: string)
    ensures IsOuterType(name) ==> name != [] && ':' !in name && !IsSpace(name[0]) && !IsSpace(name[|name| - 1])
  {
    name == "External perimeter" || name == "WALL-OUTER"
  }

  // ---- The lines the rewriter writes (epfa.py:99, 105, 107) ----

  datatype Mark = Adjust | Reset

  /** One output line: an input line passed through, or a fan command the rewriter inserted. */
  datatype OutLine = Original(text: string) | Inserted(command: FanCommand, mark: Mark)

  /** The comment tag that marks every inserted line. */
  const Tag: string := ";EPFA:"

  /**
   * `fan_gcode`'s text; `fmt` is Python's float-to-text conversion, which
   * this model leaves open. A speed reads back as a fan-set line and a stop
   * as a fan-stop line.
   */
  function CommandText(c: FanCommand, fmt: real -> string): (t: string)
    ensures c.SetSpeed? ==> t == "M106 S" + fmt(c.speed)
    ensures c.Stop? ==> t == "M107"
    ensures IsFanSet(t) <==> c.SetSpeed?
    ensures IsFanStop(t) <==> c.Stop?
  {
    match c
    case SetSpeed(x) =>
      var t := "M106" + (" S" + fmt(x));
      assert t[..4] == "M106";
      t
    case Stop =>
      var t := "M107";
      assert t[..4] == t && t[3] != "M106"[3];
      t
  }

  function MarkName(m: Mark): string {
    match m
    case Adjust => "Adjust"
    case Reset => "Reset"
  }

  /**
   * The text written for an output line: an original line verbatim, an
   * inserted one as `<command> ;EPFA:<mark> \n`, a whole line that carries
   * the tag and matches the pattern of the command it holds.
   */
  function Render(o: OutLine, fmt: real -> string): (t: string)
    ensures o.Original? ==> t == o.text
    ensures o.Inserted? ==>
      t == CommandText(o.command, fmt) + " ;EPFA:" + (if o.mark == Adjust then "Adjust" else "Reset") + " \n"
    ensures o.Inserted? ==> Contains(t, Tag) && t[|t| - 1] == '\n'
    ensures o.Inserted? ==> (IsFanSet(t) <==> o.command.SetSpeed?) && (IsFanStop(t) <==> o.command.Stop?)
  {
    match o
    case Original(text) => text
    case Inserted(c, m) =>
      InsertedLineText(c, m, fmt);
      InsertedLineTagged(c, m, fmt);
      InsertedLineCommand(c, m, fmt);
      CommandText(c, fmt) + " " + Tag + MarkName(m) + " \n"
  }

  /** An inserted line spelled out: the command, the tag and the mark's word, and a newline. */
  lemma InsertedLineText(c: FanCommand, m: Mark, fmt: real -> string)
    ensures CommandText(c, fmt) + " " + Tag + MarkName(m) + " \n" ==
      CommandText(c, fmt) + " ;EPFA:" + (if m == Adjust then "Adjust" else "Reset") + " \n"
  {
    var cmd := CommandText(c, fmt);
    assert cmd + " " + Tag == cmd + " ;EPFA:" by {
      assert " " + Tag == " ;EPFA:";
    }
    assert MarkName(m) == if m == Adjust then "Adjust" else "Reset";
  }

  /** An inserted line carries the tag and ends with a newline. */
  lemma InsertedLineTagged(c: FanCommand, m: Mark, fmt: real -> string)
    ensures var t := CommandText(c, fmt) + " " + Tag + MarkName(m) + " \n";
      Contains(t, Tag) && t[|t| - 1] == '\n'
  {
    var cmd := CommandText(c, fmt);
    var t := cmd + " " + Tag + MarkName(m) + " \n";
    assert StartsWith(t[|cmd| + 1..], Tag) by {
      assert t[|cmd| + 1..] == Tag + MarkName(m) + " \n";
    }
  }

  /** An inserted line matches the pattern of the command it holds. */
  lemma InsertedLineCommand(c: FanCommand, m: Mark, fmt: real -> string)
    ensures var t := CommandText(c, fmt) + " " + Tag + MarkName(m) + " \n";
      (IsFanSet(t) <==> c.SetSpeed?) && (IsFanStop(t) <==> c.Stop?)
  {
    var cmd := CommandText(c, fmt);
    var t := cmd + " " + Tag + MarkName(m) + " \n";
    assert t[..4] == cmd[..4];
  }
}
