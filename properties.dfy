/**
 * What the rewriting pass guarantees, proved about `Run`: the input comes
 * through intact and in order, insertions happen only from the start layer
 * on and only before `;TYPE:` lines, every outer-perimeter annotation gets an
 * Adjust, a Reset restores the slicer's last speed and always follows an
 * Adjust, the run fails exactly on a malformed `M106`, and the tag lets the
 * inserted lines be stripped again.
 */
module Properties {
  import opened Results
  import opened PyText
  import opened PyFloat
  import opened Gcode
  import opened Transducer

  // ---- Views of the output ----

  /** The output lines that are input lines passed through, in order. */
  function Originals(out: seq<OutLine>): seq<string> {
    if out == [] then []
    else Originals(out[..|out| - 1]) + (if out[|out| - 1].Original? then [out[|out| - 1].text] else [])
  }

  /** The marks of the inserted lines, in order. */
  function Marks(out: seq<OutLine>): seq<Mark> {
    if out == [] then []
    else Marks(out[..|out| - 1]) + (if out[|out| - 1].Inserted? then [out[|out| - 1].mark] else [])
  }

  lemma {:induction false} OriginalsAppend(a: seq<OutLine>, b: seq<OutLine>)
    ensures Originals(a + b) == Originals(a) + Originals(b)
    decreases |b|
  {
    if b == [] {
      assert a + b == a;
    } else {
      var n := |b| - 1;
      assert (a + b)[..|a + b| - 1] == a + b[..n];
      assert (a + b)[|a + b| - 1] == b[n];
      OriginalsAppend(a, b[..n]);
    }
  }

  lemma {:induction false} MarksAppend(a: seq<OutLine>, b: seq<OutLine>)
    ensures Marks(a + b) == Marks(a) + Marks(b)
    decreases |b|
  {
    if b == [] {
      assert a + b == a;
    } else {
      var n := |b| - 1;
      assert (a + b)[..|a + b| - 1] == a + b[..n];
      assert (a + b)[|a + b| - 1] == b[n];
      MarksAppend(a, b[..n]);
    }
  }

  /** The two views of a concatenation are the concatenations of the views. */
  lemma ViewsAppend(a: seq<OutLine>, b: seq<OutLine>)
    ensures Originals(a + b) == Originals(a) + Originals(b)
    ensures Marks(a + b) == Marks(a) + Marks(b)
  {
    OriginalsAppend(a, b);
    MarksAppend(a, b);
  }

  /** The text of each input line, in order. */
  function Texts(lines: seq<Line>): (texts: seq<string>)
    ensures |texts| == |lines|
  {
    if lines == [] then [] else Texts(lines[..|lines| - 1]) + [lines[|lines| - 1].text]
  }

  /** Classifying the lines keeps their text. */
  lemma {:induction false} TextsOfReadAll(texts: seq<string>)
    ensures Texts(ReadAll(texts)) == texts
    decreases |texts|
  {
    if texts != [] {
      var n := |texts| - 1;
      ReadAllPrefix(texts, n);
      TextsOfReadAll(texts[..n]);
      assert texts[..n] + [texts[n]] == texts;
    }
  }

  /** The lines written for one input line: an optional inserted command, then the line. */
  lemma ViewsOfEmitted(emitted: seq<OutLine>, line: string)
    requires 1 <= |emitted| <= 2 && emitted[|emitted| - 1] == Original(line)
    requires |emitted| == 2 ==> emitted[0].Inserted?
    ensures Originals(emitted) == [line]
    ensures Marks(emitted) == if |emitted| == 2 then [emitted[0].mark] else []
  {
    if |emitted| == 2 {
      var first := emitted[..1];
      assert first[..0] == [];
      assert Originals(first) == [] && Marks(first) == [emitted[0].mark];
    } else {
      assert emitted[..0] == [];
    }
  }

  /** The scan of `lines`, one line longer than the scan of its first `n` lines. */
  lemma RunUnfold(cfg: Config, lines: seq<Line>, n: nat)
    requires n < |lines| && Run(cfg, lines[..n + 1]).Ok?
    ensures Run(cfg, lines[..n]).Ok?
    ensures Step(cfg, Run(cfg, lines[..n]).value.state, lines[n], n).Ok?
    ensures var (st, emitted) := Step(cfg, Run(cfg, lines[..n]).value.state, lines[n], n).value;
      Run(cfg, lines[..n + 1]) == Ok(Scan(st, Run(cfg, lines[..n]).value.out + emitted))
  {
    assert lines[..n + 1][..n] == lines[..n];
  }

  /** A run that succeeds also succeeds on every prefix of its input. */
  lemma OkPrefix(cfg: Config, lines: seq<Line>, k: nat)
    requires Run(cfg, lines).Ok? && k <= |lines|
    ensures Run(cfg, lines[..k]).Ok?
  {
    if Run(cfg, lines[..k]).Err? {
      RunStopsAtFirstError(cfg, lines, k);
    }
  }

  // ---- Input preserved ----

  /**
   * Every input line is written exactly once and in input order, and the
   * only other lines written are the `changes` inserted commands.
   */
  lemma {:induction false} OutputPreservesInput(cfg: Config, lines: seq<Line>)
    requires Run(cfg, lines).Ok?
    ensures Originals(Run(cfg, lines).value.out) == Texts(lines)
    ensures |Marks(Run(cfg, lines).value.out)| == Run(cfg, lines).value.state.changes
    decreases |lines|
  {
    if lines != [] {
      var n := |lines| - 1;
      assert lines[..n + 1] == lines;
      RunUnfold(cfg, lines, n);
      var before := Run(cfg, lines[..n]).value;
      var (st, emitted) := Step(cfg, before.state, lines[n], n).value;
      OutputPreservesInput(cfg, lines[..n]);
      ViewsAppend(before.out, emitted);
      ViewsOfEmitted(emitted, lines[n].text);
    }
  }

  // ---- Layers ----

  /** The number of layer-change lines. */
  function CountLayerChanges(lines: seq<Line>): nat {
    if lines == [] then 0 else (if lines[0].kind.LayerChange? then 1 else 0) + CountLayerChanges(lines[1..])
  }

  lemma {:induction false} CountLayerChangesSnoc(lines: seq<Line>, line: Line)
    ensures CountLayerChanges(lines + [line]) == CountLayerChanges(lines) + (if line.kind.LayerChange? then 1 else 0)
  {
    if lines != [] {
      assert (lines + [line])[1..] == lines[1..] + [line];
      CountLayerChangesSnoc(lines[1..], line);
    }
  }

  /** `current_layer` is always one more than the number of layer changes seen. */
  lemma {:induction false} LayerIsOnePlusLayerChanges(cfg: Config, lines: seq<Line>)
    requires Run(cfg, lines).Ok?
    ensures Run(cfg, lines).value.state.layer == 1 + CountLayerChanges(lines)
    decreases |lines|
  {
    if lines != [] {
      var n := |lines| - 1;
      assert lines[..n + 1] == lines;
      RunUnfold(cfg, lines, n);
      LayerIsOnePlusLayerChanges(cfg, lines[..n]);
      assert lines[..n] + [lines[n]] == lines;
      CountLayerChangesSnoc(lines[..n], lines[n]);
    }
  }

  /**
   * No line is inserted while the layer is below the start layer: the line
   * at index `k` is written alone.
   */
  lemma NoInsertionBeforeStartLayer(cfg: Config, lines: seq<Line>, k: nat)
    requires Run(cfg, lines).Ok? && k < |lines|
    requires 1 + CountLayerChanges(lines[..k]) < cfg.startLayer
    ensures Run(cfg, lines[..k]).Ok? && Run(cfg, lines[..k + 1]).Ok?
    ensures Run(cfg, lines[..k + 1]).value.out == Run(cfg, lines[..k]).value.out + [Original(lines[k].text)]
  {
    OkPrefix(cfg, lines, k + 1);
    RunUnfold(cfg, lines, k);
    LayerIsOnePlusLayerChanges(cfg, lines[..k]);
  }

  /** Every input line passed through unchanged, with nothing inserted. */
  function PassThrough(lines: seq<Line>): (out: seq<OutLine>)
    ensures |out| == |lines|
  {
    if lines == [] then [] else PassThrough(lines[..|lines| - 1]) + [Original(lines[|lines| - 1].text)]
  }

  /** A file that never reaches the start layer is written back unchanged. */
  lemma {:induction false} FileBelowStartLayerUnchanged(cfg: Config, lines: seq<Line>)
    requires Run(cfg, lines).Ok?
    requires 1 + CountLayerChanges(lines) < cfg.startLayer
    ensures Run(cfg, lines).value.state.changes == 0
    ensures Run(cfg, lines).value.out == PassThrough(lines)
    decreases |lines|
  {
    if lines != [] {
      var n := |lines| - 1;
      assert lines[..n + 1] == lines;
      assert lines[..n] + [lines[n]] == lines;
      CountLayerChangesSnoc(lines[..n], lines[n]);
      RunUnfold(cfg, lines, n);
      LayerIsOnePlusLayerChanges(cfg, lines[..n]);
      FileBelowStartLayerUnchanged(cfg, lines[..n]);
    }
  }

  // ---- Adjust and Reset ----

  /**
   * A `;TYPE:` line naming the outer perimeter, at or after the start layer,
   * gets an Adjust to the target speed immediately before it, whether or not
   * the override is already in force.
   */
  lemma OuterPerimeterGetsAdjust(cfg: Config, lines: seq<Line>, k: nat)
    requires Run(cfg, lines).Ok? && k < |lines|
    requires lines[k].kind.TypeNote? && IsOuterType(lines[k].kind.name)
    requires 1 + CountLayerChanges(lines[..k]) >= cfg.startLayer
    ensures Run(cfg, lines[..k]).Ok? && Run(cfg, lines[..k + 1]).Ok?
    ensures Run(cfg, lines[..k + 1]).value.out ==
      Run(cfg, lines[..k]).value.out + [Inserted(FanGcode(TargetSpeed(cfg.speedPercent)), Adjust), Original(lines[k].text)]
    ensures Run(cfg, lines[..k + 1]).value.state.fanChanged
  {
    OkPrefix(cfg, lines, k + 1);
    RunUnfold(cfg, lines, k);
    LayerIsOnePlusLayerChanges(cfg, lines[..k]);
  }

  /**
   * Two outer-perimeter annotations in a row, from the start layer on, each
   * get their own Adjust: an Adjust already in force does not suppress the
   * next one.
   */
  lemma ConsecutiveOuterPerimetersBothAdjusted(cfg: Config, lines: seq<Line>, k: nat)
    requires Run(cfg, lines).Ok? && k + 1 < |lines|
    requires lines[k].kind.TypeNote? && IsOuterType(lines[k].kind.name)
    requires lines[k + 1].kind.TypeNote? && IsOuterType(lines[k + 1].kind.name)
    requires 1 + CountLayerChanges(lines[..k]) >= cfg.startLayer
    ensures Run(cfg, lines[..k]).Ok? && Run(cfg, lines[..k + 2]).Ok?
    ensures var adjust := Inserted(FanGcode(TargetSpeed(cfg.speedPercent)), Adjust);
      Run(cfg, lines[..k + 2]).value.out ==
        Run(cfg, lines[..k]).value.out + [adjust, Original(lines[k].text), adjust, Original(lines[k + 1].text)]
  {
    var adjust := Inserted(FanGcode(TargetSpeed(cfg.speedPercent)), Adjust);
    assert Run(cfg, lines[..k]).Ok? && Run(cfg, lines[..k + 1]).Ok? &&
      Run(cfg, lines[..k + 1]).value.out == Run(cfg, lines[..k]).value.out + [adjust, Original(lines[k].text)] by {
      OuterPerimeterGetsAdjust(cfg, lines, k);
    }
    assert 1 + CountLayerChanges(lines[..k + 1]) >= cfg.startLayer by {
      assert lines[..k + 1] == lines[..k] + [lines[k]];
      CountLayerChangesSnoc(lines[..k], lines[k]);
    }
    assert Run(cfg, lines[..k + 2]).Ok? &&
      Run(cfg, lines[..k + 2]).value.out == Run(cfg, lines[..k + 1]).value.out + [adjust, Original(lines[k + 1].text)] by {
      OuterPerimeterGetsAdjust(cfg, lines, k + 1);
    }
  }


  /**
   * A slicer `M106` or `M107` is written through as it stands and leaves
   * `fan_changed` as it was: while the override is in force, the last fan
   * command written can be the slicer's own, not the target speed.
   */
  lemma SlicerFanLineKeepsOverride(cfg: Config, lines: seq<Line>, k: nat)
    requires Run(cfg, lines).Ok? && k < |lines|
    requires lines[k].kind.FanSet? || lines[k].kind.FanStop?
    ensures Run(cfg, lines[..k]).Ok? && Run(cfg, lines[..k + 1]).Ok? && SpeedSetBy(lines[k]).Some?
    ensures Run(cfg, lines[..k + 1]).value.out == Run(cfg, lines[..k]).value.out + [Original(lines[k].text)]
    ensures Run(cfg, lines[..k + 1]).value.state.fanChanged == Run(cfg, lines[..k]).value.state.fanChanged
    ensures Run(cfg, lines[..k + 1]).value.state.sliced == SpeedSetBy(lines[k]).value
  {
    OkPrefix(cfg, lines, k + 1);
    RunUnfold(cfg, lines, k);
  }

  /** The speed the slicer last commanded: that of the last `M106`, 0 after an `M107`, 0 before any fan line. */
  function SpeedSetBy(line: Line): Option<real> {
    match line.kind
    case FanSet(Ok(v)) => Some(v)
    case FanStop => Some(0.0)
    case _ => None
  }

  function LastSlicerSpeed(lines: seq<Line>): real {
    if lines == [] then 0.0
    else match SpeedSetBy(lines[|lines| - 1])
      case Some(v) => v
      case None => LastSlicerSpeed(lines[..|lines| - 1])
  }

  /** When `lines[j]` is the last fan line, the last slicer speed is the one it sets. */
  lemma {:induction false} LastSlicerSpeedIsLastFanLine(lines: seq<Line>, j: nat)
    requires j < |lines| && SpeedSetBy(lines[j]).Some?
    requires forall m :: j < m < |lines| ==> SpeedSetBy(lines[m]).None?
    ensures LastSlicerSpeed(lines) == SpeedSetBy(lines[j]).value
    decreases |lines|
  {
    var n := |lines| - 1;
    if j < n {
      assert forall m :: j < m < n ==> lines[..n][m] == lines[m];
      LastSlicerSpeedIsLastFanLine(lines[..n], j);
    }
  }

  /** Before any fan line the last slicer speed is 0. */
  lemma {:induction false} LastSlicerSpeedWithoutFanLines(lines: seq<Line>)
    requires forall m :: 0 <= m < |lines| ==> SpeedSetBy(lines[m]).None?
    ensures LastSlicerSpeed(lines) == 0.0
    decreases |lines|
  {
    if lines != [] {
      var n := |lines| - 1;
      assert forall m :: 0 <= m < n ==> lines[..n][m] == lines[m];
      LastSlicerSpeedWithoutFanLines(lines[..n]);
    }
  }

  /** `sliced_fan_speed` is always the speed the slicer last commanded. */
  lemma {:induction false} SlicedIsLastSlicerSpeed(cfg: Config, lines: seq<Line>)
    requires Run(cfg, lines).Ok?
    ensures Run(cfg, lines).value.state.sliced == LastSlicerSpeed(lines)
    decreases |lines|
  {
    if lines != [] {
      var n := |lines| - 1;
      assert lines[..n + 1] == lines;
      RunUnfold(cfg, lines, n);
      SlicedIsLastSlicerSpeed(cfg, lines[..n]);
    }
  }

  /** The override is in force: the last inserted line is an Adjust. */
  predicate OverrideInForce(out: seq<OutLine>) {
    var m := Marks(out);
    m != [] && m[|m| - 1] == Adjust
  }

  /** Every Reset comes right after an Adjust in the sequence of inserted lines. */
  predicate ResetsFollowAdjusts(m: seq<Mark>) {
    forall i :: 0 <= i < |m| && m[i] == Reset ==> 0 < i && m[i - 1] == Adjust
  }

  /** Appending an Adjust, or a Reset right after an Adjust, keeps every Reset after an Adjust. */
  lemma ResetsFollowAdjustsSnoc(m: seq<Mark>, x: Mark)
    requires ResetsFollowAdjusts(m)
    requires x == Reset ==> m != [] && m[|m| - 1] == Adjust
    ensures ResetsFollowAdjusts(m + [x])
  {
    var m' := m + [x];
    forall i | 0 <= i < |m'| && m'[i] == Reset ensures 0 < i && m'[i - 1] == Adjust {
      if i < |m| { assert m[i] == Reset; }
    }
  }

  /** The override invariant: `fan_changed` tells whether the last inserted line is an Adjust, and Resets follow Adjusts. */
  predicate OverrideConsistent(st: ScanState, out: seq<OutLine>) {
    (st.fanChanged <==> OverrideInForce(out)) && ResetsFollowAdjusts(Marks(out))
  }

  /** Every step keeps the override invariant. */
  lemma StepKeepsOverrideConsistent(cfg: Config, st: ScanState, out: seq<OutLine>, line: Line, at: nat)
    requires OverrideConsistent(st, out) && Step(cfg, st, line, at).Ok?
    ensures var (st', emitted) := Step(cfg, st, line, at).value; OverrideConsistent(st', out + emitted)
  {
    var (st', emitted) := Step(cfg, st, line, at).value;
    EmittedKeepsOverrideConsistent(st, out, st', emitted, line.text);
  }

  /** The lines written for one input line keep the override invariant, given how they set the flag. */
  lemma EmittedKeepsOverrideConsistent(st: ScanState, out: seq<OutLine>, st': ScanState, emitted: seq<OutLine>, line: string)
    requires OverrideConsistent(st, out)
    requires 1 <= |emitted| <= 2 && emitted[|emitted| - 1] == Original(line)
    requires |emitted| == 2 ==> emitted[0].Inserted?
    requires |emitted| == 1 ==> st'.fanChanged == st.fanChanged
    requires |emitted| == 2 && emitted[0].mark == Adjust ==> st'.fanChanged
    requires |emitted| == 2 && emitted[0].mark == Reset ==> st.fanChanged && !st'.fanChanged
    ensures OverrideConsistent(st', out + emitted)
  {
    ViewsAppend(out, emitted);
    ViewsOfEmitted(emitted, line);
    if |emitted| == 2 {
      ResetsFollowAdjustsSnoc(Marks(out), emitted[0].mark);
    } else {
      assert Marks(out + emitted) == Marks(out);
    }
  }

  /**
   * `fan_changed` holds exactly when the last inserted line is an Adjust,
   * and a Reset is only ever inserted right after an Adjust: no Reset comes
   * first and no two Resets are adjacent.
   */
  lemma {:induction false} OverrideFlagTracksMarks(cfg: Config, lines: seq<Line>)
    requires Run(cfg, lines).Ok?
    ensures Run(cfg, lines).value.state.fanChanged <==> OverrideInForce(Run(cfg, lines).value.out)
    ensures ResetsFollowAdjusts(Marks(Run(cfg, lines).value.out))
    decreases |lines|
  {
    if lines == [] {
      assert Marks([]) == [];
    } else {
      var n := |lines| - 1;
      assert lines[..n + 1] == lines;
      RunUnfold(cfg, lines, n);
      var before := Run(cfg, lines[..n]).value;
      OverrideFlagTracksMarks(cfg, lines[..n]);
      StepKeepsOverrideConsistent(cfg, before.state, before.out, lines[n], n);
    }
  }

  /**
   * A `;TYPE:` line of any other region, at or after the start layer, gets a
   * Reset to the slicer's last speed immediately before it exactly when the
   * override is in force, and nothing otherwise.
   */
  lemma OtherRegionResets(cfg: Config, lines: seq<Line>, k: nat)
    requires Run(cfg, lines).Ok? && k < |lines|
    requires lines[k].kind.TypeNote? && !IsOuterType(lines[k].kind.name)
    requires 1 + CountLayerChanges(lines[..k]) >= cfg.startLayer
    ensures Run(cfg, lines[..k]).Ok? && Run(cfg, lines[..k + 1]).Ok?
    ensures var before := Run(cfg, lines[..k]).value.out;
      Run(cfg, lines[..k + 1]).value.out ==
        before + (if OverrideInForce(before) then [Inserted(FanGcode(LastSlicerSpeed(lines[..k])), Reset)] else []) + [Original(lines[k].text)]
    ensures !Run(cfg, lines[..k + 1]).value.state.fanChanged
  {
    OkPrefix(cfg, lines, k + 1);
    RunUnfold(cfg, lines, k);
    var before := Run(cfg, lines[..k]).value;
    assert before.state.layer >= cfg.startLayer by {
      LayerIsOnePlusLayerChanges(cfg, lines[..k]);
    }
    assert before.state.sliced == LastSlicerSpeed(lines[..k]) by {
      SlicedIsLastSlicerSpeed(cfg, lines[..k]);
    }
    assert before.state.fanChanged <==> OverrideInForce(before.out) by {
      OverrideFlagTracksMarks(cfg, lines[..k]);
    }
    StepOnOtherRegion(cfg, before.state, lines[k], k);
    var reset := if before.state.fanChanged then [Inserted(FanGcode(before.state.sliced), Reset)] else [];
    assert before.out + (reset + [Original(lines[k].text)]) == before.out + reset + [Original(lines[k].text)];
  }

  /** What one step does with any other annotation at or after the start layer. */
  lemma StepOnOtherRegion(cfg: Config, st: ScanState, line: Line, at: nat)
    requires line.kind.TypeNote? && !IsOuterType(line.kind.name) && st.layer >= cfg.startLayer
    ensures Step(cfg, st, line, at) == Ok((
      st.(fanChanged := false, changes := st.changes + (if st.fanChanged then 1 else 0)),
      (if st.fanChanged then [Inserted(FanGcode(st.sliced), Reset)] else []) + [Original(line.text)]))
  {
    if st.fanChanged {
      assert [Inserted(FanGcode(st.sliced), Reset)] + [Original(line.text)] == [Inserted(FanGcode(st.sliced), Reset), Original(line.text)];
    } else {
      assert [] + [Original(line.text)] == [Original(line.text)];
      assert st.(fanChanged := false, changes := st.changes) == st;
    }
  }

  /** In a sequence where each Reset follows an Adjust there are no more Resets than Adjusts. */
  lemma {:induction false} ResetsFollowingAdjustsAreFewer(m: seq<Mark>)
    requires ResetsFollowAdjusts(m)
    ensures multiset(m)[Reset] <= multiset(m)[Adjust]
    decreases |m|
  {
    if m != [] {
      var n := |m| - 1;
      if m[n] == Reset {
        var init := m[..n - 1];
        assert m == init + [Adjust, Reset];
        assert multiset(m) == multiset(init) + multiset{Adjust, Reset};
        ResetsFollowAdjustsPrefix(m, n - 1);
        ResetsFollowingAdjustsAreFewer(init);
      } else {
        var init := m[..n];
        assert m == init + [Adjust];
        assert multiset(m) == multiset(init) + multiset{Adjust};
        ResetsFollowAdjustsPrefix(m, n);
        ResetsFollowingAdjustsAreFewer(init);
      }
    }
  }

  /** Every prefix of a sequence whose Resets follow Adjusts has the same property. */
  lemma ResetsFollowAdjustsPrefix(m: seq<Mark>, k: nat)
    requires ResetsFollowAdjusts(m) && k <= |m|
    ensures ResetsFollowAdjusts(m[..k])
  {
    forall i | 0 <= i < k && m[..k][i] == Reset ensures 0 < i && m[..k][i - 1] == Adjust {
      assert m[i] == Reset;
    }
  }

  /** A run never inserts more Resets than Adjusts. */
  lemma ResetsNeverOutnumberAdjusts(cfg: Config, lines: seq<Line>)
    requires Run(cfg, lines).Ok?
    ensures var m := Marks(Run(cfg, lines).value.out); multiset(m)[Reset] <= multiset(m)[Adjust]
  {
    OverrideFlagTracksMarks(cfg, lines);
    ResetsFollowingAdjustsAreFewer(Marks(Run(cfg, lines).value.out));
  }

  // ---- Malformed fan-set lines ----

  /**
   * The run fails exactly when some `M106` line has no readable speed, and
   * it reports the first such line.
   */
  lemma {:induction false} FailsIffMalformedFanSet(cfg: Config, lines: seq<Line>)
    ensures Run(cfg, lines).Err? <==> exists k :: 0 <= k < |lines| && Malformed(lines[k])
    ensures Run(cfg, lines).Err? ==>
      var e := Run(cfg, lines).error;
      e.at < |lines| && Malformed(lines[e.at]) && e.why == lines[e.at].kind.speed.error &&
      forall k :: 0 <= k < e.at ==> !Malformed(lines[k])
    decreases |lines|
  {
    if lines != [] {
      var n := |lines| - 1;
      FailsIffMalformedFanSet(cfg, lines[..n]);
      assert forall k :: 0 <= k < n ==> lines[..n][k] == lines[k];
      if Run(cfg, lines[..n]).Ok? && Malformed(lines[n]) {
        assert Malformed(lines[n]);
      }
    }
  }

  // ---- The text written ----

  /** The text of the output, one string per line. */
  function RenderAll(out: seq<OutLine>, fmt: real -> string): (text: seq<string>)
    ensures |text| == |out|
  {
    seq(|out|, i requires 0 <= i < |out| => Render(out[i], fmt))
  }

  /** The lines that do not carry the tag: what a reader stripping the inserted lines keeps. */
  function Untag(text: seq<string>): seq<string> {
    if text == [] then []
    else Untag(text[..|text| - 1]) + (if Contains(text[|text| - 1], Tag) then [] else [text[|text| - 1]])
  }

  lemma {:induction false} UntagRendered(out: seq<OutLine>, fmt: real -> string)
    requires forall t :: t in Originals(out) ==> !Contains(t, Tag)
    ensures Untag(RenderAll(out, fmt)) == Originals(out)
    decreases |out|
  {
    if out != [] {
      var n := |out| - 1;
      assert out == out[..n] + [out[n]];
      assert RenderAll(out, fmt)[..n] == RenderAll(out[..n], fmt);
      ViewsAppend(out[..n], [out[n]]);
      UntagRendered(out[..n], fmt);
      if out[n].Original? {
        assert Originals([out[n]]) == [out[n].text];
      }
    }
  }

  /**
   * When no input line carries the tag, dropping the tagged lines from the
   * text written gives back exactly the input.
   */
  lemma UntagRecoversInput(cfg: Config, texts: seq<string>, fmt: real -> string)
    requires Run(cfg, ReadAll(texts)).Ok?
    requires forall i :: 0 <= i < |texts| ==> !Contains(texts[i], Tag)
    ensures Untag(RenderAll(Run(cfg, ReadAll(texts)).value.out, fmt)) == texts
  {
    OutputPreservesInput(cfg, ReadAll(texts));
    TextsOfReadAll(texts);
    UntagRendered(Run(cfg, ReadAll(texts)).value.out, fmt);
  }

  /** The comment written after an inserted command holds no `S` and opens with `;`. */
  lemma TagCommentShape(m: Mark)
    ensures var tail := " " + Tag + MarkName(m) + " \n"; 'S' !in tail && tail[1] == ';'
  {
    if m == Adjust {
      assert " " + Tag + MarkName(m) + " \n" == " ;EPFA:Adjust \n";
    } else {
      assert " " + Tag + MarkName(m) + " \n" == " ;EPFA:Reset \n";
    }
  }

  /** An inserted `M106` line, split at its only `S`. */
  lemma InsertedSetSpeedText(x: real, m: Mark, fmt: real -> string)
    ensures var line := Render(Inserted(SetSpeed(x), m), fmt);
      line == "M106 " + ['S'] + (fmt(x) + (" " + Tag + MarkName(m) + " \n")) && StartsWith(line, "M106")
  {
    var line := Render(Inserted(SetSpeed(x), m), fmt);
    assert line == "M106 " + ['S'] + (fmt(x) + (" " + Tag + MarkName(m) + " \n"));
    assert line[..4] == "M106";
  }

  /**
   * An inserted `M106` line is itself a malformed fan-set line: its text
   * after the `S` is the speed followed by the tag comment, which is not a
   * number (provided the speed's text holds no `S`, which Python's float
   * formatting never produces).
   */
  lemma InsertedSetSpeedIsMalformed(x: real, m: Mark, fmt: real -> string)
    requires 'S' !in fmt(x)
    ensures var line := Render(Inserted(SetSpeed(x), m), fmt);
      IsFanSet(line) && FanSetSpeed(line) == Err(NotANumber)
  {
    var line := Render(Inserted(SetSpeed(x), m), fmt);
    var rest := fmt(x) + (" " + Tag + MarkName(m) + " \n");
    InsertedSetSpeedText(x, m, fmt);
    assert ParseFloat(rest) == None && 'S' !in rest by {
      TagCommentShape(m);
      assert rest[|fmt(x)| + 1] == ';';
      StrayCharacterRejected(rest, |fmt(x)| + 1);
    }
    FanSetSpeedOfField("M106 ", rest);
  }

  /**
   * Running the rewriter again on its own output fails as soon as the first
   * run inserted an `M106` line (a positive target or slicer speed).
   */
  lemma SecondRunAborts(cfg: Config, cfg2: Config, lines: seq<Line>, fmt: real -> string, i: nat)
    requires Run(cfg, lines).Ok?
    requires var out := Run(cfg, lines).value.out;
      i < |out| && out[i].Inserted? && out[i].command.SetSpeed? && 'S' !in fmt(out[i].command.speed)
    ensures Run(cfg2, ReadAll(RenderAll(Run(cfg, lines).value.out, fmt))).Err?
  {
    var out := Run(cfg, lines).value.out;
    var text := ReadAll(RenderAll(out, fmt));
    InsertedSetSpeedIsMalformed(out[i].command.speed, out[i].mark, fmt);
    assert text[i] == Read(Render(out[i], fmt));
    assert Malformed(text[i]);
    FailsIffMalformedFanSet(cfg2, text);
  }
}
