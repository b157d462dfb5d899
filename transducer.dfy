/**
 * The rewriting pass of epfa.py (lines 76-107): one forward scan over the
 * G-code lines that carries the current layer, the fan speed last set by the
 * slicer, whether the outer-perimeter speed is in force, and the number of
 * inserted lines. `Step` and `Run` specify the scan over classified lines;
 * `Process` is the loop over the raw text.
 */
module Transducer {
  import opened Results
  import opened Gcode

  /** The run's settings: the outer-perimeter fan speed in percent and the first layer to adjust. */
  datatype Config = Config(speedPercent: real, startLayer: int)

  /** `current_layer`, `sliced_fan_speed`, `fan_changed` and `changes`. */
  datatype ScanState = ScanState(layer: int, sliced: real, fanChanged: bool, changes: nat)

  /** The state before the first line (epfa.py:58-59, 76, 80). */
  const Initial := ScanState(1, 0.0, false, 0)

  /** An input line with its kind. */
  datatype Line = Line(text: string, kind: LineKind)

  function Read(text: string): Line {
    Line(text, Classify(text))
  }

  /** The input file, each line classified. */
  function ReadAll(texts: seq<string>): (lines: seq<Line>)
    ensures |lines| == |texts|
    ensures forall i :: 0 <= i < |texts| ==> lines[i] == Read(texts[i])
  {
    seq(|texts|, i requires 0 <= i < |texts| => Read(texts[i]))
  }

  /** The state after a prefix of the input, and the lines written for it. */
  datatype Scan = Scan(state: ScanState, out: seq<OutLine>)

  /** A fan-set line at input index `at` whose speed cannot be read aborts the run. */
  datatype Error = MalformedFanCommand(at: nat, why: SpeedError)

  /** A fan-set line whose speed cannot be read. */
  predicate Malformed(line: Line) {
    line.kind.FanSet? && line.kind.speed.Err?
  }

  /**
   * What the scan does with one line (the body of the loop at epfa.py:82-107):
   * the new state and the lines written, the inserted fan command (if any)
   * followed by the line itself.
   */
  function Step(cfg: Config, st: ScanState, line: Line, at: nat): (r: Result<(ScanState, seq<OutLine>), Error>)
    ensures r.Err? <==> Malformed(line)
    ensures r.Err? ==> r.error == MalformedFanCommand(at, line.kind.speed.error)
    ensures r.Ok? ==>
      var (st', emitted) := r.value;
      1 <= |emitted| <= 2 && emitted[|emitted| - 1] == Original(line.text) &&
      st'.changes == st.changes + |emitted| - 1 &&
      st'.layer == st.layer + (if line.kind.LayerChange? then 1 else 0)
    ensures r.Ok? && |r.value.1| == 2 ==>
      line.kind.TypeNote? && st.layer >= cfg.startLayer && r.value.1[0].Inserted?
    ensures r.Ok? && |r.value.1| == 1 ==> r.value.0.fanChanged == st.fanChanged
    ensures r.Ok? && |r.value.1| == 2 && r.value.1[0].mark == Adjust ==>
      r.value.0.fanChanged && r.value.1[0].command == FanGcode(TargetSpeed(cfg.speedPercent))
    ensures r.Ok? && |r.value.1| == 2 && r.value.1[0].mark == Reset ==>
      st.fanChanged && !r.value.0.fanChanged && r.value.1[0].command == FanGcode(st.sliced)
  {
    match line.kind
    case LayerChange =>
      Ok((st.(layer := st.layer + 1), [Original(line.text)]))
    case FanSet(speed) =>
      (match speed
       case Err(why) => Err(MalformedFanCommand(at, why))
       case Ok(v) => Ok((st.(sliced := v), [Original(line.text)])))
    case FanStop =>
      Ok((st.(sliced := 0.0), [Original(line.text)]))
    case TypeNote(name) =>
      if st.layer < cfg.startLayer then
        Ok((st, [Original(line.text)]))
      else if IsOuterType(name) then
        Ok((st.(fanChanged := true, changes := st.changes + 1),
            [Inserted(FanGcode(TargetSpeed(cfg.speedPercent)), Adjust), Original(line.text)]))
      else if st.fanChanged then
        Ok((st.(fanChanged := false, changes := st.changes + 1),
            [Inserted(FanGcode(st.sliced), Reset), Original(line.text)]))
      else
        Ok((st, [Original(line.text)]))
    case Other =>
      Ok((st, [Original(line.text)]))
  }

  /**
   * The scan over `lines`, one `Step` per line in order, stopping at the
   * first malformed fan-set line. Every line written is accounted for: the
   * input lines and one per counted change.
   */
  function Run(cfg: Config, lines: seq<Line>): (r: Result<Scan, Error>)
    ensures r.Ok? ==> |r.value.out| == |lines| + r.value.state.changes
    decreases |lines|
  {
    if lines == [] then Ok(Scan(Initial, []))
    else
      var n := |lines| - 1;
      match Run(cfg, lines[..n])
      case Err(e) => Err(e)
      case Ok(before) =>
        match Step(cfg, before.state, lines[n], n)
        case Err(e) => Err(e)
        case Ok((st, emitted)) => Ok(Scan(st, before.out + emitted))
  }

  /** What a successful run writes back, and how many lines it inserted. */
  datatype Rewrite = Rewrite(out: seq<OutLine>, changes: nat)

  /**
   * One pass of the loop body (epfa.py:84-107): the four state variables are
   * updated for `line`, and the lines to write for it are collected, an
   * optional fan command followed by the line itself. A fan-set line whose
   * speed cannot be read aborts, as `float()` raises there.
   */
  method ScanLine(cfg: Config, target: real, st: ScanState, line: string, at: nat) returns (r: Result<(ScanState, seq<OutLine>), Error>)
    requires target == TargetSpeed(cfg.speedPercent)
    ensures r == Step(cfg, st, Read(line), at)
  {
    var currentLayer, slicedFanSpeed, fanChanged, changes := st.layer, st.sliced, st.fanChanged, st.changes;
    var kind := Classify(line);
    StepCases(cfg, st, Line(line, kind), at);
    var emitted := [Original(line)];
    match kind {
    case LayerChange =>
      currentLayer := currentLayer + 1;
    case FanSet(speed) =>
      if speed.Err? {
        return Err(MalformedFanCommand(at, speed.error));
      }
      slicedFanSpeed := speed.value;
    case FanStop =>
      slicedFanSpeed := 0.0;
    case TypeNote(name) =>
      if currentLayer >= cfg.startLayer {
        if IsOuterType(name) {
          emitted := [Inserted(FanGcode(target), Adjust), Original(line)];
          fanChanged := true;
          changes := changes + 1;
        } else if fanChanged {
          fanChanged := false;
          emitted := [Inserted(FanGcode(slicedFanSpeed), Reset), Original(line)];
          changes := changes + 1;
        }
      }
    case Other =>
    }
    r := Ok((ScanState(currentLayer, slicedFanSpeed, fanChanged, changes), emitted));
  }

  /**
   * The rewriting loop (epfa.py:76-107) over the raw lines of the file: it
   * writes what `Run` writes for the classified file, or aborts with `Run`'s
   * error at the first malformed fan-set line.
   */
  method Process(cfg: Config, texts: seq<string>) returns (r: Result<Rewrite, Error>)
    ensures r.Err? <==> Run(cfg, ReadAll(texts)).Err?
    ensures r.Err? ==> r.error == Run(cfg, ReadAll(texts)).error
    ensures r.Ok? ==> r.value == Rewrite(Run(cfg, ReadAll(texts)).value.out, Run(cfg, ReadAll(texts)).value.state.changes)
  {
    var target := TargetSpeed(cfg.speedPercent);
    // current_layer, sliced_fan_speed, fan_changed and changes
    var st := Initial;
    var dest: seq<OutLine> := [];
    for i := 0 to |texts|
      invariant Run(cfg, ReadAll(texts[..i])) == Ok(Scan(st, dest))
    {
      ReadAllSnoc(texts, i);
      var step := ScanLine(cfg, target, st, texts[i], i);
      match step {
      case Err(e) =>
        RunFailsAt(cfg, texts, i, st, dest);
        return Err(e);
      case Ok((st', emitted)) =>
        RunExtends(cfg, ReadAll(texts[..i]), Read(texts[i]), st, dest, st', emitted);
        st := st';
        dest := dest + emitted;
      }
    }
    assert texts[..|texts|] == texts;
    r := Ok(Rewrite(dest, st.changes));
  }

  /** `Step`, one kind of line at a time. */
  lemma StepCases(cfg: Config, st: ScanState, line: Line, at: nat)
    ensures line.kind.LayerChange? ==> Step(cfg, st, line, at) == Ok((st.(layer := st.layer + 1), [Original(line.text)]))
    ensures line.kind.FanSet? && line.kind.speed.Ok? ==> Step(cfg, st, line, at) == Ok((st.(sliced := line.kind.speed.value), [Original(line.text)]))
    ensures line.kind.FanStop? ==> Step(cfg, st, line, at) == Ok((st.(sliced := 0.0), [Original(line.text)]))
    ensures line.kind.Other? ==> Step(cfg, st, line, at) == Ok((st, [Original(line.text)]))
    ensures line.kind.TypeNote? && st.layer < cfg.startLayer ==> Step(cfg, st, line, at) == Ok((st, [Original(line.text)]))
    ensures line.kind.TypeNote? && st.layer >= cfg.startLayer && IsOuterType(line.kind.name) ==>
      Step(cfg, st, line, at) == Ok((st.(fanChanged := true, changes := st.changes + 1),
        [Inserted(FanGcode(TargetSpeed(cfg.speedPercent)), Adjust), Original(line.text)]))
    ensures line.kind.TypeNote? && st.layer >= cfg.startLayer && !IsOuterType(line.kind.name) && st.fanChanged ==>
      Step(cfg, st, line, at) == Ok((st.(fanChanged := false, changes := st.changes + 1),
        [Inserted(FanGcode(st.sliced), Reset), Original(line.text)]))
    ensures line.kind.TypeNote? && st.layer >= cfg.startLayer && !IsOuterType(line.kind.name) && !st.fanChanged ==>
      Step(cfg, st, line, at) == Ok((st, [Original(line.text)]))
  {
  }

  /** Classifying one more line extends the classified file by that line. */
  lemma ReadAllSnoc(texts: seq<string>, i: nat)
    requires i < |texts|
    ensures ReadAll(texts[..i + 1]) == ReadAll(texts[..i]) + [Read(texts[i])]
  {
    assert ReadAll(texts[..i + 1])[i] == Read(texts[i]);
  }

  /** A successful step extends the run by one line. */
  lemma RunExtends(cfg: Config, lines: seq<Line>, line: Line, st: ScanState, out: seq<OutLine>, st': ScanState, emitted: seq<OutLine>)
    requires Run(cfg, lines) == Ok(Scan(st, out))
    requires Step(cfg, st, line, |lines|) == Ok((st', emitted))
    ensures Run(cfg, lines + [line]) == Ok(Scan(st', out + emitted))
  {
    assert (lines + [line])[..|lines|] == lines;
  }

  /** Classifying a prefix of the file gives the prefix of the classified file. */
  lemma ReadAllPrefix(texts: seq<string>, k: nat)
    requires k <= |texts|
    ensures ReadAll(texts)[..k] == ReadAll(texts[..k])
  {
  }

  /** A malformed line after a successful prefix ends the run with its error. */
  lemma RunFailsAt(cfg: Config, texts: seq<string>, i: nat, st: ScanState, out: seq<OutLine>)
    requires i < |texts| && Run(cfg, ReadAll(texts[..i])) == Ok(Scan(st, out)) && Malformed(Read(texts[i]))
    ensures Run(cfg, ReadAll(texts)) == Err(MalformedFanCommand(i, Read(texts[i]).kind.speed.error))
  {
    var prefix := ReadAll(texts[..i]) + [Read(texts[i])];
    assert prefix[..i] == ReadAll(texts[..i]);
    assert Run(cfg, prefix) == Err(MalformedFanCommand(i, Read(texts[i]).kind.speed.error));
    ReadAllSnoc(texts, i);
    ReadAllPrefix(texts, i + 1);
    RunStopsAtFirstError(cfg, ReadAll(texts), i + 1);
  }

  /** Once a prefix of the input fails, the whole run fails with the same error. */
  lemma {:induction false} RunStopsAtFirstError(cfg: Config, lines: seq<Line>, k: nat)
    requires k <= |lines| && Run(cfg, lines[..k]).Err?
    ensures Run(cfg, lines) == Run(cfg, lines[..k])
    decreases |lines|
  {
    if k < |lines| {
      var n := |lines| - 1;
      assert lines[..n][..k] == lines[..k];
      RunStopsAtFirstError(cfg, lines[..n], k);
    } else {
      assert lines[..k] == lines;
    }
  }
}
