# Relaxation driver of dpgen's CALYPSO interface, in Dafny

`calypso_run_opt.py` relaxes one crystal structure with a DeePMD potential
under ASE. It writes the result as a VASP-style CONTCAR (the structure) and
OUTCAR (stress, forces, energy and enthalpy). The script itself owns three
pieces of logic. This project models each of them and proves what it
promises:

- **Species tabulation** (`Get_Element_Num`, module `Species`, species.dfy).
  From the atoms' chemical symbols it builds the distinct species in
  first-occurrence order and the number of atoms of each. Each of the
  source's two loops is a method of its own, and `GetElementNum` runs them
  in the source's order. It is proved equal to the
  specification function `Distinct`, whose properties are proved as lemmas:
  the first symbol comes first, there are no duplicates, the set of labels
  is the same, and the order is first-occurrence order in both directions.
  The counts are Python's `list.count`, and they sum to the number of
  atoms. That sum is the `na` that bounds the atom lines written to both
  files.
- **Control-file interpretation** (the loop of `read_stress_fmax`, module
  `Control`, control.dfy). Starting from fmax = 0.01 and PSTRESS = 0, the
  loop skips lines whose first character is `#`. A line containing
  `PSTRESS` or `pstress` sets the pressure, and a line containing `fmax`
  sets the force threshold. Either way the value is `float` of the line's
  second `=`-separated field (`split("=")[1]`: the text between the first
  `=` and the next one, or the line's end), and later lines win. The model is a method
  with the source's loop and locals. It is proved equal to `Interpret`, a
  line-by-line fold. The lemmas about the fold say:
  - comment lines change nothing;
  - a key that no line mentions keeps its default;
  - the last line that mentions a key decides its value;
  - the result is an error iff some line is faulty, and then it is the
    error of the first faulty line.

  A faulty line is a non-comment line that mentions a key and whose
  `split("=")[1]` is out of range or whose `float` fails; no other line is
  split or converted. `split` and `join` are modelled with their round trip
  in both directions.
- **Report arithmetic over the reals** (module `Report`, report.dfy). This
  covers:
  - the kB to eV/Å³ conversion of the target pressure;
  - the conversion of ASE's stress back to kB with the report's sign, and
    that the two conversions are inverse up to that sign;
  - the external pressure;
  - the enthalpy `E + pV/1602.17733`;
  - the per-atom values;
  - the assignment of ASE's stress components to OUTCAR's columns.

The conversion of a field to a number (Python's `float`) is a parameter
`parse: string -> Option<real>`. The file's contents arrive as its list of
lines.

Two facts about the control-file loop:
- The key match is case-sensitive on exactly the three substrings `PSTRESS`,
  `pstress` and `fmax`.
- When several lines set a key, the last one wins, not the first.

## Model

| member | source | states |
|---|---|---|
| Species.GetElementNum | dpgen/generator/lib/calypso_run_opt.py:18-28 | for a non-empty symbol list, `element` is `Distinct(elements)` (so, by its contract and DistinctHead and DistinctOrderIff, no duplicates, the input's labels, the first atom's species first, in first-occurrence order), and `ele` has exactly the keys of `element` and maps each to its number of occurrences |
| Species.FirstOccurrences | dpgen/generator/lib/calypso_run_opt.py:20-25 | the list loop (start from `elements[0]`, append each symbol not yet listed) computes exactly `Distinct(elements)` |
| Species.CountEach | dpgen/generator/lib/calypso_run_opt.py:26-27 | the dictionary loop yields a map whose keys are exactly the listed species, each mapped to its number of occurrences |
| Species.Distinct | dpgen/generator/lib/calypso_run_opt.py:20-25 | the first-occurrence list has no duplicates and holds a label iff the input does |
| Species.DistinctHead | dpgen/generator/lib/calypso_run_opt.py:22 | for a non-empty input the first species is the first atom's symbol |
| Species.Occurrences | dpgen/generator/lib/calypso_run_opt.py:27 | `elements.count(x)` is at most the length, and positive iff `x` occurs |
| Species.FirstIndex | dpgen/generator/lib/calypso_run_opt.py:24 | the index found holds `x` and no earlier index does |
| Species.DistinctInFirstOccurrenceOrder | dpgen/generator/lib/calypso_run_opt.py:23-25 | a species listed before another first appears earlier in the input |
| Species.DistinctOrderIff | dpgen/generator/lib/calypso_run_opt.py:23-25 | species i precedes species j iff i's first occurrence precedes j's |
| Species.OccurrencesSnoc | dpgen/generator/lib/calypso_run_opt.py:27 | appending one symbol adds one to its own count and leaves the others |
| Species.TotalSnoc | dpgen/generator/lib/calypso_run_opt.py:26-27 | over duplicate-free keys, appending a symbol raises the summed counts by one iff it is a key |
| Species.TotalOfDistinct | dpgen/generator/lib/calypso_run_opt.py:26-27 | the counts of the distinct species sum to the number of atoms |
| Species.AtomCount | dpgen/generator/lib/calypso_run_opt.py:45 | `na = sum(ele.values())` for a dictionary whose keys are exactly the duplicate-free `element`, summed in insertion order; no value of the dictionary exceeds it |
| Species.AtomCountOfTabulation | dpgen/generator/lib/calypso_run_opt.py:45 | the values of a dictionary whose keys are exactly the distinct species, each mapped to its count, sum to the number of atoms, the `na` of the atom lines written |
| Species.SumOverIsTotal | dpgen/generator/lib/calypso_run_opt.py:45 | summing a dictionary of occurrence counts over a key list gives the summed count of those keys |
| Control.Contains | dpgen/generator/lib/calypso_run_opt.py:106-108 | Python's `pat in s`: a found pattern fits in the string (ContainsOnlyIf and ContainsAt make it an iff with an occurrence at an index) |
| Control.ContainsOnlyIf | dpgen/generator/lib/calypso_run_opt.py:106-108 | a string that contains `pat` holds it, character for character, at some index |
| Control.Mentions | dpgen/generator/lib/calypso_run_opt.py:106-108 | the key tests `'PSTRESS' in line or 'pstress' in line` and `'fmax' in line`; a mentioning line has at least four characters (MentionsIff is the iff with an exact occurrence of the key word) |
| Control.MentionsIff | dpgen/generator/lib/calypso_run_opt.py:106-108 | a line mentions a key iff, at some index, it holds `fmax`, or `PSTRESS` or `pstress`, exactly in that case |
| Control.KeyMatch | dpgen/generator/lib/calypso_run_opt.py:106-108 | a key word anywhere in a line, with anything around it, is a mention; `FMAX` and `Pstress` are not |
| Control.Value | dpgen/generator/lib/calypso_run_opt.py:107 | `float(line.split("=")[1])` is the `MissingValue` error iff the line has no `=`; a conversion error names an `=`-free field that does not convert; a value is the conversion of the second field |
| Control.ValueIgnoresLaterFields | dpgen/generator/lib/calypso_run_opt.py:107 | text after a second `=` is dropped: `KEY=text=rest` reads like `KEY=text` |
| Control.Step | dpgen/generator/lib/calypso_run_opt.py:104-109 | one line: a comment changes nothing; the line raises iff it is faulty, with that line's error; otherwise each mentioned key takes the line's value and each other key keeps its own |
| Control.Interpret | dpgen/generator/lib/calypso_run_opt.py:91-109 | the fold of the lines from the defaults; when it fails, its error is that of some faulty line (OkIffNoFaultyLine and ErrorOfFirstFaultyLine say which) |
| Control.ReadStressFmax | dpgen/generator/lib/calypso_run_opt.py:90-110 | the loop over lines, with its locals, its comment skip and its two independent key tests, returns exactly `Interpret(lines)` or its error |
| Control.Split | dpgen/generator/lib/calypso_run_opt.py:107 | `split("=")` yields at least one field, exactly one iff there is no `=`, no field holds `=`, and joining the fields gives back the line |
| Control.SplitJoin | dpgen/generator/lib/calypso_run_opt.py:107 | splitting the join of `=`-free fields gives back the fields |
| Control.SplitNoSeparator | dpgen/generator/lib/calypso_run_opt.py:107 | a line without `=` splits into itself alone |
| Control.SplitAfterSeparator | dpgen/generator/lib/calypso_run_opt.py:107 | the field before the first `=` is split off whole |
| Control.ValueOfAssignment | dpgen/generator/lib/calypso_run_opt.py:107 | for `KEY=text` with no further `=`, the value read is `float(text)`, or the conversion error naming `text` |
| Control.ErrorPersists | dpgen/generator/lib/calypso_run_opt.py:106-109 | an error raised on a line ends the reading; the later lines do not matter |
| Control.CommentIgnored | dpgen/generator/lib/calypso_run_opt.py:104-105 | inserting a line that starts with `#` anywhere leaves the outcome unchanged |
| Control.OkIffNoFaultyLine | dpgen/generator/lib/calypso_run_opt.py:106-109 | reading succeeds iff no non-comment key line lacks `=` or holds an unconvertible value |
| Control.ErrorOfFirstFaultyLine | dpgen/generator/lib/calypso_run_opt.py:106-109 | the error raised is that of the first faulty line |
| Control.UnmentionedKeyKeepsDefault | dpgen/generator/lib/calypso_run_opt.py:91-92 | a key no non-comment line mentions keeps its default, 0 for the pressure and 0.01 for fmax |
| Control.LastMentionWins | dpgen/generator/lib/calypso_run_opt.py:103-109 | each key ends with the value of the last non-comment line that mentions it, and a line mentioning both keys sets both |
| Report.TargetToInternal | dpgen/generator/lib/calypso_run_opt.py:127 | `aim_stress` has the sign of the target pressure (zero iff it is zero), and the report conversion of its negation gives back the target |
| Report.InternalToReported | dpgen/generator/lib/calypso_run_opt.py:141-156 | a negative (compressive) internal stress is reported as a positive pressure, and zero as zero |
| Report.ConversionsInverse | dpgen/generator/lib/calypso_run_opt.py:127-141 | the target conversion (`* 0.01 * 0.6242 / 10`) and the report conversion (`/ (0.01 * 0.6242) * -10`) undo each other up to sign, in both directions |
| Report.ReportStress | dpgen/generator/lib/calypso_run_opt.py:141 | the trace of the reported stress is the report conversion of the internal trace |
| Report.ExternalPressure | dpgen/generator/lib/calypso_run_opt.py:70 | the external pressure is the diagonal stress less the target for a hydrostatic stress; it is zero iff the mean diagonal stress equals the target, and negative iff the mean is below it |
| Report.RelaxedCellHasZeroExternalPressure | dpgen/generator/lib/calypso_run_opt.py:127-156 | a cell at exactly the optimiser's target stress is reported at zero external pressure, whatever its shear |
| Report.Enthalpy | dpgen/generator/lib/calypso_run_opt.py:86 | the enthalpy equals the energy when the target pressure is 0; it is above (below) the energy iff pV is positive (negative); its excess over the energy times 1602.17733 is pV |
| Report.PerAtom | dpgen/generator/lib/calypso_run_opt.py:85-87 | the per-atom value times the atom count is the total, with the same sign |
| Report.ColumnsAsWritten | dpgen/generator/lib/calypso_run_opt.py:59-68 | the writer puts stress entry k under column k of XX YY ZZ XY YZ ZX |
| Report.ShearColumnsMislabelled | dpgen/generator/lib/calypso_run_opt.py:59-68 | a pure xy shear in ASE's Voigt order is written under ZX, not XY |
| Report.Columns | dpgen/generator/lib/calypso_run_opt.py:59-68 | each of ASE's Voigt components lands under its own heading |
| Report.ColumnsRoundTrip | dpgen/generator/lib/calypso_run_opt.py:59-68 | reading a tensor's Voigt vector into columns gives back the tensor |
| Report.OutcarStress | dpgen/generator/lib/calypso_run_opt.py:156 | the intended OUTCAR stress block (the corrected layout of the finding below): the tensor behind ASE's vector, each component converted to kB with the report's sign |
| Report.OutcarStressAsWritten | dpgen/generator/lib/calypso_run_opt.py:59-68 | the stress block as the file is written: column k of XX YY ZZ XY YZ ZX holds entry k of ASE's vector converted to kB with the report's sign |
| Report.AsWrittenAgreesIffEqualShears | dpgen/generator/lib/calypso_run_opt.py:59-68 | the written block equals the intended one iff the three shear components are equal; the diagonal columns always agree |

## Left out

- File access and the `../input.dat` fallback with its assertion
  (calypso_run_opt.py:94-102): filesystem I/O. The model starts from the
  file's lines.
- Python's `float` grammar (whitespace, signs, exponents): it is the
  parameter `parse`. Only its success or failure and its value matter to
  the loop. `parse` returns a real, so it cannot yield Python's `nan`,
  `inf` or `-inf`: a line such as `fmax = nan`, which the source accepts,
  becomes in the model either an error or some finite real, depending on
  the `parse` supplied.
- Control.ReadStressFmax: returns the pressure as a real 0.0 when no line
  sets it, where the source returns the integer 0. The two are equal as
  numbers.
- Species.GetElementNum: requires a non-empty symbol list rather than
  modelling the `IndexError` of `elements[0]`. The only caller passes ASE's
  symbols of a structure, which has at least one atom.
- The DeePMD calculator, ASE's `read`, `UnitCellFilter` and the LBFGS
  optimisation with its 1000-step cap (calypso_run_opt.py:115, 120,
  128-134): foreign libraries and numerical optimisation.
- `os.system("mv OUTCAR OUTCAR-last")`, the timing and the printed lines
  (calypso_run_opt.py:116, 118, 121, 160-163): side effects outside the
  logic.
- Write_Contcar and Write_Outcar as text: the fixed-width float formatting
  and the matrix inversion `np.linalg.inv` for fractional coordinates are
  floating-point numerics and text output. The model keeps the atom-line
  count `na`, the stress columns and the derived quantities.
- All arithmetic is over mathematical reals, not IEEE doubles.
- tests/dispatcher/test_local_session.py: `LocalSession` is not part of
  this model. The test asserts only that a path is truthy.

The enthalpy uses 1/1602.17733 = 0.000624150... eV per kB·Å³. The optimiser
target uses 0.01·0.6242/10 = 0.0006242. The two constants are rounded
differently, so they agree only to four significant digits. The model keeps
both as written.

## Findings

| source | as written | input that shows it | evidently intended | confidence | as-written member | corrected member |
|---|---|---|---|---|---|---|
| dpgen/generator/lib/calypso_run_opt.py:59-68 | stress entries 3, 4, 5 go under the headings XY, YZ, ZX, but ASE's `get_stress` gives them in Voigt order yz, xz, xy | a cell under pure xy shear: ASE returns (0, 0, 0, 0, 0, s), and the OUTCAR shows s under ZX and 0 under XY | each shear component under its own heading, as in VASP's OUTCAR | medium: depends on ASE's documented Voigt order; the diagonal, and so the external pressure, is unaffected; not executed | Report.ShearColumnsMislabelled | Report.Columns |
