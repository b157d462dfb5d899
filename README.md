# External Perimeter Fan Adjust, modelled in Dafny

`epfa.py` post-processes a G-code file written by PrusaSlicer or Cura. It
changes the part-cooling fan speed for the outermost wall of the print. The
script reads the file line by line and keeps four pieces of state:

- the current layer;
- the fan speed the slicer last commanded;
- whether the outer-perimeter speed is in force (`fan_changed`);
- the number of lines it has inserted.

Before each `;TYPE:` region annotation, from the start layer on, it may insert
one fan command:

- before an outer-perimeter region (`External perimeter` or `WALL-OUTER`), an
  `M106`/`M107` line that sets the configured speed, tagged `;EPFA:Adjust`;
- before any other region while the override is in force, a line that puts
  back the slicer's speed, tagged `;EPFA:Reset`.

Every input line is then written unchanged.

The model has five modules:

- `Results` holds the `Option` and `Result` types.
- `PyText` models the Python string operations the script uses: `str.strip`
  with Python's whitespace set, `split(c)[1]`, and anchored prefix matching.
- `PyFloat` models `float()` on decimal text.
- `Gcode` covers the G-code vocabulary:
  - the four line classifiers and their combination `Classify`;
  - the speed of an `M106` line;
  - `fan_gcode`;
  - the clamped target speed;
  - the region name of a `;TYPE:` line;
  - the text of an inserted line.
- `Transducer` specifies the scan as a left fold. `Step` handles one
  classified line and `Run` covers a whole file. `Process` is the loop itself,
  over the raw lines, and `ScanLine` is its body. `ScanLine` updates the
  script's four state variables. Both are proved to compute what `Step` and
  `Run` specify.
- `Properties` proves what the scan guarantees, stated about `Run`.

The output is modelled as structured lines: each one is either an input line
passed through or an inserted command with its mark. `Render` and `RenderAll`
give the text, given a float-to-text formatter `fmt`.

Two behaviours of the code shape what `fan_changed` means, and the model
keeps both:

- The scan does not test `fan_changed` before inserting an Adjust
  (epfa.py:98-101). Every qualifying annotation gets its own Adjust,
  consecutive ones included, so entering the override is not idempotent
  (`Properties.ConsecutiveOuterPerimetersBothAdjusted`).
- A slicer `M106` or `M107` (epfa.py:86-92) updates `sliced_fan_speed` and
  leaves `fan_changed` alone. While the override is in force, the last fan
  command in the file can therefore be the slicer's own rather than the
  target speed (`Properties.SlicerFanLineKeepsOverride`). What `fan_changed`
  does track is that the last inserted line is an Adjust
  (`Properties.OverrideFlagTracksMarks`).

## Model

| member | source | states |
|---|---|---|
| Gcode.TargetSpeed | epfa.py:42-44 | the target is `speed * 255 / 100` inside [0, 255]; a percentage of 100 or more gives 255, and one of 0 or less gives 0 |
| Gcode.PatternsExclusive | epfa.py:63-68 | no line matches two of the layer-change, `M106`, `M107` and `;TYPE:` patterns |
| Gcode.Classify | epfa.py:63-68 | a line's kind holds exactly when its prefix pattern matches; a fan-set kind carries the speed read from the line, and an annotation carries its stripped region name |
| Gcode.FanSetSpeed | epfa.py:88 | reading an `M106` speed fails with MissingS exactly when the line has no `S`; when there is an `S`, it succeeds exactly when the text between the first and second `S` reads as a number, and the result is that number |
| Gcode.FanSetSpeedOfWholeNumber | epfa.py:88 | `M106 S<n>` followed by whitespace reads as the speed n |
| Gcode.FanGcode | epfa.py:71 | `fan_gcode(x)` is a stop command exactly when x <= 0, and otherwise sets speed x |
| Gcode.TypeName | epfa.py:95 | the region name of a `;TYPE:` line holds no `:` and has no whitespace at either end |
| Gcode.TypeNameOfAnnotation | epfa.py:95 | the region name of `;TYPE:<pre><name><post><rest>` is exactly `<name>` when `pre` and `post` are whitespace, `name` has no `:` and no whitespace at its ends, and `rest` is empty or starts with `:` |
| Gcode.EveryTypeNoteSplits | epfa.py:95 | every `;TYPE:` line splits into such parts, and its region name is the `name` part, so the two lemmas together fix the name of any annotation |
| Gcode.IsOuterType | epfa.py:64-65 | the two outer-perimeter spellings are non-empty, hold no `:` and have no whitespace at either end, so each is a region name an annotation can carry |
| Gcode.CommandText | epfa.py:71 | `fan_gcode`'s text is `M106 S<x>` for a speed and `M107` for a stop, so it matches the `M106` pattern exactly when it sets a speed and the `M107` pattern exactly when it stops the fan |
| Gcode.Render | epfa.py:99-107 | an input line is written verbatim; an inserted line is `<command> ;EPFA:Adjust \n` or `<command> ;EPFA:Reset \n` according to its mark, so it ends in a newline, contains the `;EPFA:` tag, and matches the `M106` or `M107` pattern of the command it carries |
| PyText.Strip | epfa.py:95 | `str.strip` removes exactly the leading and trailing whitespace: what remains is a contiguous piece of the input with no whitespace at either end |
| PyText.StripPadded | epfa.py:95 | stripping whitespace padding around a core that neither starts nor ends with whitespace gives back the core |
| PyText.SecondField | epfa.py:88 | `s.split(c)[1]` is absent exactly when c does not occur in s; otherwise it is the text between the first and second c |
| PyFloat.ParseFloat | epfa.py:88 | `float()` accepts only text whose stripped form is non-empty and made of digits, signs and points |
| PyFloat.StrayCharacterRejected | epfa.py:88 | text holding a character that is neither whitespace nor part of a number is not a number |
| PyFloat.ParseShowNat | epfa.py:88 | the decimal text of n, followed by whitespace, reads back as n |
| Transducer.ReadAll | epfa.py:82 | each input line is classified on its own, and the result has one entry per input line |
| Transducer.Step | epfa.py:84-107 | one line fails exactly when it is a malformed `M106`; otherwise the line itself is written last, after at most one inserted line. An insertion comes only before an annotation at or after the start layer. The layer grows only on a layer change. An Adjust sets the flag and carries the target speed. A Reset needs the flag, clears it and carries the slicer's speed. Without an insertion the flag is unchanged |
| Transducer.Run | epfa.py:80-107 | the output length is the input length plus the number of changes |
| Transducer.ScanLine | epfa.py:84-107 | one pass of the loop body on the four state variables computes exactly what `Step` specifies for the classified line, including the abort on a malformed `M106` |
| Transducer.Process | epfa.py:76-107 | the loop fails exactly when the scan of the classified file fails, with the same error; otherwise it writes exactly the scan's output and change count |
| Transducer.RunStopsAtFirstError | epfa.py:88 | once a prefix of the file fails, the whole run fails with that same error |
| Properties.TextsOfReadAll | epfa.py:82 | classifying the lines keeps their text |
| Properties.OutputPreservesInput | epfa.py:99-107 | the output's pass-through lines are exactly the input lines, in order, and there are exactly `changes` inserted lines |
| Properties.LayerIsOnePlusLayerChanges | epfa.py:80-85 | `current_layer` is 1 plus the number of layer-change lines seen |
| Properties.NoInsertionBeforeStartLayer | epfa.py:94 | a line read while the layer is below the start layer is written alone |
| Properties.FileBelowStartLayerUnchanged | epfa.py:94 | a file that never reaches the start layer is written back unchanged, with no changes |
| Properties.OuterPerimeterGetsAdjust | epfa.py:95-101 | an outer-perimeter annotation at or after the start layer is immediately preceded by an Adjust to the target speed, whatever the state, and the override is then in force |
| Properties.ConsecutiveOuterPerimetersBothAdjusted | epfa.py:98-101 | wherever two outer-perimeter annotations follow one another at or after the start layer, each gets its own Adjust to the target speed |
| Properties.SlicerFanLineKeepsOverride | epfa.py:86-92 | a slicer `M106` or `M107` is written alone, sets the slicer speed, and leaves `fan_changed` unchanged, so the override can stay in force after the slicer's own fan command |
| Properties.LastSlicerSpeedIsLastFanLine | epfa.py:87-92 | the last slicer speed is the speed set by the last fan line |
| Properties.LastSlicerSpeedWithoutFanLines | epfa.py:58 | with no fan line yet, the last slicer speed is 0 |
| Properties.SlicedIsLastSlicerSpeed | epfa.py:58-92 | `sliced_fan_speed` is the speed of the last `M106`, or 0 after an `M107` or before any fan line |
| Properties.StepKeepsOverrideConsistent | epfa.py:98-106 | every step keeps the flag equal to "the last inserted line is an Adjust" and keeps every Reset directly after an Adjust |
| Properties.OverrideFlagTracksMarks | epfa.py:98-106 | `fan_changed` holds exactly when the last inserted line is an Adjust, and every Reset directly follows an Adjust among the inserted lines, so there is an Adjust between any two Resets |
| Properties.OtherRegionResets | epfa.py:103-106 | any other annotation at or after the start layer is preceded by a Reset to `fan_gcode` of the slicer's last speed exactly when the override is in force, and otherwise by nothing; either way the override is then off |
| Properties.ResetsFollowingAdjustsAreFewer | epfa.py:100-106 | in a mark sequence where each Reset follows an Adjust, Resets are no more numerous than Adjusts |
| Properties.ResetsNeverOutnumberAdjusts | epfa.py:100-106 | a run never inserts more Resets than Adjusts |
| Properties.FailsIffMalformedFanSet | epfa.py:88 | a run fails exactly when some `M106` line has no readable speed; the error names the first such line and why its speed could not be read |
| Properties.UntagRendered | epfa.py:99-107 | dropping the tagged lines from the rendered output leaves its pass-through lines |
| Properties.UntagRecoversInput | epfa.py:99-107 | if no input line carries the tag, dropping the tagged lines from the written text gives back the input |
| Properties.InsertedSetSpeedIsMalformed | epfa.py:88 | an inserted `M106` line, read back, is a fan-set line whose speed is not a number |
| Properties.SecondRunAborts | epfa.py:88 | rewriting a file a second time aborts if the first pass inserted any `M106` line |

## Left out

- Argument parsing and its defaults (speed 100, start layer 4), the interactive prompts and the summary print are left out. They are user-interface glue. The speed and start layer are fields of `Config`.
- Reading the file and overwriting it in place are left out. The input is a sequence of lines and the output a sequence of structured lines. A crash leaves a half-written file, which the model does not represent: it returns only an error.
- Float-to-text formatting of speeds is not modelled. Rendering takes the formatter `fmt` as a parameter. The lemmas about rendered text assume only that the formatted speed holds no `S`.
- Speeds are exact reals. Floating-point rounding of `speed * 255 / 100` is not modelled, and neither are NaN or infinities, including how the clamp treats a NaN percentage.
- PyFloat.ParseFloat: accepts decimal notation only: an optional sign and digits with at most one decimal point. Python's `float()` also accepts exponents, `inf`, `nan`, underscores between digits and non-ASCII digits; these are treated as not numbers.
- The regular-expression engine is not modelled. The four patterns are anchored prefixes, modelled as prefix tests.
- The unused `Boolean` import has no behaviour and is not modelled.
