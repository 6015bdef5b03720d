/**
 * The two reference tables and how the per-stimulus loop pairs their rows:
 * the population table of typical colour values and the subject's table of
 * equiluminance factors are walked in lock-step by position, and the
 * stimulus file name is taken from the subject's table.
 */
module Tables {
  import opened Pixels

  /** One table row: the stimulus file name and its true-colour and inverted-colour R, G, B numbers. */
  datatype Row = Row(stimulus: string, trueRgb: Rgb, invRgb: Rgb)

  /** One iteration of the loop: the file name it works on and the two rows it pairs. */
  datatype Job = Job(stimulus: string, typical: Row, factors: Row)

  function Min(a: nat, b: nat): (m: nat)
    ensures m <= a && m <= b && (m == a || m == b)
  {
    if a <= b then a else b
  }

  /**
   * Python's zip over the rows of the colour table and the luminance table:
   * row i is paired with row i, iteration stops at the shorter table, and the
   * name of a job is the luminance row's stimulus (the colour row's name is
   * never consulted).
   */
  function Jobs(colorTable: seq<Row>, lumTable: seq<Row>): (jobs: seq<Job>)
    ensures |jobs| == Min(|colorTable|, |lumTable|)
    ensures forall i :: 0 <= i < |jobs| ==>
              jobs[i] == Job(lumTable[i].stimulus, colorTable[i], lumTable[i])
  {
    if colorTable == [] || lumTable == [] then []
    else [Job(lumTable[0].stimulus, colorTable[0], lumTable[0])] + Jobs(colorTable[1..], lumTable[1..])
  }

  /** The directories the loop reads from and writes to. */
  datatype Folder =
    | TrueColorStimuli | InvertedLabStimuli | ColorMasks | ForegroundBackgroundMasks
    | ClippedTrueColor | ClippedInvertedColor | SubjectTrueColor | SubjectInvertedColor

  datatype Location = Location(folder: Folder, file: string)

  /** The true-colour image, the inverted image, the colour mask and the foreground mask a job reads. */
  function Inputs(job: Job): (locs: seq<Location>)
    ensures |locs| == 4
    ensures forall l :: l in locs ==> l.file == job.stimulus
    ensures forall l :: l in locs ==> l.folder in {TrueColorStimuli, InvertedLabStimuli, ColorMasks, ForegroundBackgroundMasks}
  {
    [Location(TrueColorStimuli, job.stimulus), Location(InvertedLabStimuli, job.stimulus),
     Location(ColorMasks, job.stimulus), Location(ForegroundBackgroundMasks, job.stimulus)]
  }

  /** The two clip images and the two corrected images a job writes, in the order they are written. */
  function Outputs(job: Job): (locs: seq<Location>)
    ensures |locs| == 4
    ensures forall l :: l in locs ==> l.file == job.stimulus
    ensures forall m, n :: 0 <= m < n < |locs| ==> locs[m] != locs[n]
    ensures forall l :: l in locs ==> l !in Inputs(job)
  {
    [Location(ClippedTrueColor, job.stimulus), Location(ClippedInvertedColor, job.stimulus),
     Location(SubjectTrueColor, job.stimulus), Location(SubjectInvertedColor, job.stimulus)]
  }

  /**
   * When the luminance table names every stimulus once, no file is written by
   * two different iterations of the loop, so every output is determined by a
   * single job.
   */
  lemma OutputsDistinct(colorTable: seq<Row>, lumTable: seq<Row>, m: nat, n: nat)
    requires forall a, b :: 0 <= a < b < |lumTable| ==> lumTable[a].stimulus != lumTable[b].stimulus
    requires m < n < |Jobs(colorTable, lumTable)|
    ensures forall l :: l in Outputs(Jobs(colorTable, lumTable)[m]) ==> l !in Outputs(Jobs(colorTable, lumTable)[n])
  {
  }
}
