/**
 * medium_analysis/model.py: `load_and_preprocess_data` fills and lower-cases
 * the subtitle column of the loaded table; `create_features` adds four
 * numeric columns to the table in place and returns the feature matrix X
 * (the TF-IDF block of the subtitles, then the four columns) and the label
 * column y.
 */
module Features {
  import opened Wrappers
  import opened PyText
  import opened Frames

  /** The exceptions the two functions can raise. */
  datatype Error =
    | FileNotFound            // `pd.read_csv` on a path that does not exist
    | KeyError(column: string) // a column the code reads is absent
    | TypeError               // `len` of a cell that is not text
    | AttributeError          // `.lower()` of a cell that is not text
    | VectorizerError         // `TfidfVectorizer.fit_transform` refused the subtitles

  // ---------------------------------------------------------------------------
  // Per-cell and per-column derivations

  /** `col.fillna(fill)`. */
  function FillNa(col: Column, fill: string): (r: Column)
    ensures |r| == |col|
    ensures forall i :: 0 <= i < |col| ==> !r[i].Missing?
    ensures forall i :: 0 <= i < |col| && !col[i].Missing? ==> r[i] == col[i]
    ensures forall i :: 0 <= i < |col| && col[i].Missing? ==> r[i] == Str(fill)
  {
    seq(|col|, i requires 0 <= i < |col| => if col[i].Missing? then Str(fill) else col[i])
  }

  predicate AllText(col: Column) {
    forall i :: 0 <= i < |col| ==> col[i].Str?
  }

  /** `col.apply(lambda x: x.lower())`: only text has `.lower()`. */
  function LowerColumn(col: Column): (r: Result<Column, Error>)
    ensures r.Failure? <==> !AllText(col)
    ensures r.Failure? ==> r.error == AttributeError
    ensures r.Success? ==> |r.value| == |col|
    ensures r.Success? ==> forall i :: 0 <= i < |col| ==> r.value[i] == Str(Lower(col[i].s))
  {
    if AllText(col) then Success(seq(|col|, i requires 0 <= i < |col| => Str(Lower(col[i].s))))
    else Failure(AttributeError)
  }

  /** `col.apply(len)`: only text has a length here. */
  function LengthColumn(col: Column): (r: Result<Column, Error>)
    ensures r.Failure? <==> !AllText(col)
    ensures r.Failure? ==> r.error == TypeError
    ensures r.Success? ==> |r.value| == |col|
    ensures r.Success? ==> forall i :: 0 <= i < |col| ==> r.value[i] == Int(|col[i].s|)
  {
    if AllText(col) then Success(seq(|col|, i requires 0 <= i < |col| => Int(|col[i].s|)))
    else Failure(TypeError)
  }

  /**
   * `len(x.split(',')) if isinstance(x, str) else 0`: a cell that is not
   * text counts 0, text counts at least 1, and text without a comma exactly 1.
   */
  function TagCount(v: Value): (n: int)
    ensures !v.Str? ==> n == 0
    ensures v.Str? ==> n >= 1
    ensures v.Str? && ',' !in v.s ==> n == 1
  {
    if v.Str? then
      if ',' !in v.s then SplitNoSeparator(v.s, ','); |Split(v.s, ',')|
      else |Split(v.s, ',')|
    else 0
  }

  function TagCountColumn(col: Column): (r: Column)
    ensures |r| == |col|
    ensures forall i :: 0 <= i < |col| ==> r[i] == Int(TagCount(col[i]))
  {
    seq(|col|, i requires 0 <= i < |col| => Int(TagCount(col[i])))
  }

  // ---------------------------------------------------------------------------
  // load_and_preprocess_data

  /** The table after the two subtitle assignments, or the exception raised. */
  function Preprocess(t: Table): (r: Result<Table, Error>)
    requires WellFormed(t)
    ensures r.Success? ==> WellFormed(r.value) && r.value.height == t.height && r.value.names == t.names
  {
    if "subtitle" !in t.cols then Failure(KeyError("subtitle"))
    else
      var filled := FillNa(t.cols["subtitle"], "");
      match LowerColumn(filled)
      case Failure(e) => Failure(e)
      case Success(low) => Success(Assign(Assign(t, "subtitle", filled), "subtitle", low))
  }

  /** `load_and_preprocess_data(csv_path)`, given what `pd.read_csv` loads (None: no such file). */
  function LoadAndPreprocess(loaded: Option<Table>): Result<Table, Error>
    requires loaded.Some? ==> WellFormed(loaded.value)
  {
    match loaded
    case None => Failure(FileNotFound)
    case Some(t) => Preprocess(t)
  }

  /** `load_and_preprocess_data(csv_path)`: the loaded frame, its subtitle column assigned twice. */
  method LoadAndPreprocessData(loaded: Option<Table>) returns (r: Result<Frame, Error>)
    requires loaded.Some? ==> WellFormed(loaded.value)
    ensures r.Success? <==> LoadAndPreprocess(loaded).Success?
    ensures r.Failure? ==> r.error == LoadAndPreprocess(loaded).error
    ensures r.Success? ==> fresh(r.value) && r.value.Valid() && r.value.Snapshot() == LoadAndPreprocess(loaded).value
  {
    if loaded.None? {
      return Failure(FileNotFound);
    }
    var data := new Frame(loaded.value);
    if "subtitle" !in data.cols {
      return Failure(KeyError("subtitle"));
    }
    var filled := FillNa(data.cols["subtitle"], "");
    data.SetColumn("subtitle", filled);
    var low := LowerColumn(data.cols["subtitle"]);
    if low.Failure? {
      return Failure(low.error);
    }
    data.SetColumn("subtitle", low.value);
    return Success(data);
  }

  // ---------------------------------------------------------------------------
  // Properties of load_and_preprocess_data

  /** Preprocessing fails exactly when the subtitle column is absent or holds a cell that is neither text nor missing. */
  lemma PreprocessSucceedsIff(t: Table)
    requires WellFormed(t)
    ensures Preprocess(t).Success? <==>
              "subtitle" in t.cols
              && forall i :: 0 <= i < t.height ==> t.cols["subtitle"][i].Missing? || t.cols["subtitle"][i].Str?
    ensures "subtitle" !in t.cols ==> Preprocess(t) == Failure(KeyError("subtitle"))
  {
    if "subtitle" in t.cols {
      var col := t.cols["subtitle"];
      var filled := FillNa(col, "");
      if !AllText(filled) {
        var i :| 0 <= i < |filled| && !filled[i].Str?;
        assert !col[i].Missing? && !col[i].Str?;
      }
    }
  }

  /**
   * After preprocessing no subtitle is missing: a missing cell has become ""
   * and every text has been lower-cased, in the same row.
   */
  lemma PreprocessedSubtitles(t: Table)
    requires WellFormed(t) && Preprocess(t).Success?
    ensures var sub := Preprocess(t).value.cols["subtitle"];
            |sub| == t.height
            && forall i :: 0 <= i < t.height ==>
                 sub[i].Str? && sub[i].s == Lower(sub[i].s)
                 && sub[i] == (if t.cols["subtitle"][i].Missing? then Str("") else Str(Lower(t.cols["subtitle"][i].s)))
  {
    var sub := Preprocess(t).value.cols["subtitle"];
    forall i | 0 <= i < t.height ensures sub[i].s == Lower(sub[i].s) {
      LowerIdempotent(FillNa(t.cols["subtitle"], "")[i].s);
    }
  }

  /** Preprocessing keeps the row count, the column order and every other column. */
  lemma PreprocessKeepsOthers(t: Table)
    requires WellFormed(t) && Preprocess(t).Success?
    ensures WellFormed(Preprocess(t).value)
    ensures Preprocess(t).value.names == t.names && Preprocess(t).value.height == t.height
    ensures forall n :: n in t.cols && n != "subtitle" ==> Preprocess(t).value.cols[n] == t.cols[n]
  {
  }

  /** Preprocessing an already preprocessed table changes nothing. */
  lemma PreprocessIdempotent(t: Table)
    requires WellFormed(t) && Preprocess(t).Success?
    ensures Preprocess(Preprocess(t).value) == Preprocess(t)
  {
    var p := Preprocess(t).value;
    PreprocessedSubtitles(t);
    var sub := p.cols["subtitle"];
    var filled := FillNa(sub, "");
    assert filled == sub;
    var low := LowerColumn(filled);
    assert low.Success?;
    assert low.value == sub;
    assert p.cols["subtitle" := sub] == p.cols;
  }

  // ---------------------------------------------------------------------------
  // create_features

  /** How a feature column is computed from its source column. */
  datatype Derivation = Length | Copy | Tags

  /** `data[target] = <derivation of> data[source]`. */
  datatype Step = Step(target: string, source: string, derive: Derivation)

  const TitleLength := Step("title_length", "title", Length)
  const SubtitleLength := Step("subtitle_length", "subtitle", Length)
  const NumImages := Step("num_images", "image_count", Copy)
  const NumTags := Step("num_tags", "tags", Tags)

  /** The numeric columns X ends with. */
  const NumericNames: seq<string> := ["title_length", "subtitle_length", "num_images", "num_tags"]

  function Derive(d: Derivation, col: Column): (r: Result<Column, Error>)
    ensures r.Success? ==> |r.value| == |col|
  {
    match d
    case Length => LengthColumn(col)
    case Copy => Success(col)
    case Tags => Success(TagCountColumn(col))
  }

  /** One assignment: a KeyError when the source column is absent, else the derivation's outcome. */
  function StepOn(t: Table, s: Step): (r: Result<Table, Error>)
    requires WellFormed(t)
    ensures r.Success? ==> WellFormed(r.value) && r.value.height == t.height
  {
    if s.source !in t.cols then Failure(KeyError(s.source))
    else
      match Derive(s.derive, t.cols[s.source])
      case Failure(e) => Failure(e)
      case Success(col) => Success(Assign(t, s.target, col))
  }

  /**
   * The table after the four assignments, in order, up to the first that
   * raises, and that one's exception. The table is changed in place, so the
   * columns assigned before the exception stay.
   */
  function AddFeatures(t: Table): (r: (Table, Option<Error>))
    requires WellFormed(t)
    ensures WellFormed(r.0) && r.0.height == t.height
  {
    var r1 := StepOn(t, TitleLength);
    if r1.Failure? then (t, Some(r1.error))
    else
      var r2 := StepOn(r1.value, SubtitleLength);
      if r2.Failure? then (r1.value, Some(r2.error))
      else
        var r3 := StepOn(r2.value, NumImages);
        if r3.Failure? then (r2.value, Some(r3.error))
        else
          var r4 := StepOn(r3.value, NumTags);
          if r4.Failure? then (r3.value, Some(r4.error))
          else (r4.value, None)
  }

  /** The maximum number of text features the vectorizer keeps. */
  const MaxFeatures: nat := 1000

  /** The TF-IDF matrix: one row per subtitle, `width` columns. */
  datatype TextBlock = TextBlock(width: nat, rows: seq<seq<real>>)

  /** What the vectorizer promises: at most MaxFeatures columns, one row per document. */
  ghost predicate Shaped(b: TextBlock, height: nat) {
    b.width <= MaxFeatures && |b.rows| == height
    && forall i :: 0 <= i < |b.rows| ==> |b.rows[i]| == b.width
  }

  /** A column label of the concatenated X: a position in the text block or a name. */
  datatype Label = Position(k: nat) | Name(s: string)

  /** `pd.concat([pd.DataFrame(X_text), data[NumericNames]], axis=1).columns`. */
  function ConcatLabels(width: nat): (ls: seq<Label>)
    ensures |ls| == width + |NumericNames|
  {
    seq(width, k requires 0 <= k < width => Position(k))
      + seq(|NumericNames|, k requires 0 <= k < |NumericNames| => Name(NumericNames[k]))
  }

  /** `str(label)`. */
  function LabelText(l: Label): string {
    match l
    case Position(k) => Decimal(k)
    case Name(s) => s
  }

  /** `X.columns = X.columns.astype(str)`. */
  function AsStrLabels(ls: seq<Label>): (names: seq<string>)
    ensures |names| == |ls|
    ensures forall i :: 0 <= i < |ls| ==> names[i] == LabelText(ls[i])
  {
    seq(|ls|, i requires 0 <= i < |ls| => LabelText(ls[i]))
  }

  /** The feature matrix, column by column. */
  datatype Matrix = Matrix(names: seq<string>, columns: seq<Column>, height: nat)

  /** X and y. */
  datatype FeatureSet = FeatureSet(x: Matrix, y: Column)

  function TextColumn(b: TextBlock, j: nat): Column
    requires forall i :: 0 <= i < |b.rows| ==> j < |b.rows[i]|
  {
    seq(|b.rows|, i requires 0 <= i < |b.rows| => Real(b.rows[i][j]))
  }

  /** The text block's columns, then the four numeric columns of the table. */
  function BuildX(t: Table, b: TextBlock): (x: Matrix)
    requires Shaped(b, t.height)
    requires forall k :: 0 <= k < |NumericNames| ==> NumericNames[k] in t.cols
  {
    Matrix(
      AsStrLabels(ConcatLabels(b.width)),
      seq(b.width, j requires 0 <= j < b.width => TextColumn(b, j))
        + seq(|NumericNames|, k requires 0 <= k < |NumericNames| => t.cols[NumericNames[k]]),
      t.height)
  }

  /** `create_features(data)`: X and y, or the exception raised. */
  function FeaturesOf(t: Table, text: Option<TextBlock>): Result<FeatureSet, Error>
    requires WellFormed(t) && (text.Some? ==> Shaped(text.value, t.height))
  {
    var (t1, err) := AddFeatures(t);
    if err.Some? then Failure(err.value)
    else if text.None? then Failure(VectorizerError)
    else if "success" !in t1.cols then Failure(KeyError("success"))
    else
      FeatureColumnsAdded(t);
      Success(FeatureSet(BuildX(t1, text.value), t1.cols["success"]))
  }

  /** A successful assignment puts the derived column under its target name. */
  lemma StepAddsTarget(t: Table, s: Step)
    requires WellFormed(t) && StepOn(t, s).Success?
    ensures s.source in t.cols && s.target in StepOn(t, s).value.cols
    ensures StepOn(t, s).value.cols[s.target] == Derive(s.derive, t.cols[s.source]).value
  {
  }

  /** A successful assignment leaves a column with another name, present or absent, as it was. */
  lemma StepKeeps(t: Table, s: Step, n: string)
    requires WellFormed(t) && StepOn(t, s).Success? && n != s.target
    ensures n in StepOn(t, s).value.cols <==> n in t.cols
    ensures n in t.cols ==> StepOn(t, s).value.cols[n] == t.cols[n]
  {
  }

  /** When every step succeeds, the four feature columns are in the table. */
  lemma FeatureColumnsAdded(t: Table)
    requires WellFormed(t)
    ensures AddFeatures(t).1.None? ==>
              forall k :: 0 <= k < |NumericNames| ==> NumericNames[k] in AddFeatures(t).0.cols
  {
    if AddFeatures(t).1.None? {
      TitleLengthAdded(t);
      SubtitleLengthAdded(t);
      NumImagesAdded(t);
      NumTagsAdded(t);
    }
  }

  /** When no assignment raises, the tables between the four assignments, each step succeeding. */
  lemma StepsChain(t: Table) returns (t1: Table, t2: Table, t3: Table)
    requires WellFormed(t) && AddFeatures(t).1.None?
    ensures WellFormed(t1) && WellFormed(t2) && WellFormed(t3)
    ensures StepOn(t, TitleLength) == Success(t1)
    ensures StepOn(t1, SubtitleLength) == Success(t2)
    ensures StepOn(t2, NumImages) == Success(t3)
    ensures StepOn(t3, NumTags) == Success(AddFeatures(t).0)
  {
    t1 := StepOn(t, TitleLength).value;
    t2 := StepOn(t1, SubtitleLength).value;
    t3 := StepOn(t2, NumImages).value;
  }

  lemma TitleLengthAdded(t: Table)
    requires WellFormed(t) && AddFeatures(t).1.None?
    ensures "title" in t.cols && "title_length" in AddFeatures(t).0.cols
    ensures AddFeatures(t).0.cols["title_length"] == LengthColumn(t.cols["title"]).value
  {
    var t1, t2, t3 := StepsChain(t);
    StepAddsTarget(t, TitleLength);
    StepKeeps(t1, SubtitleLength, "title_length");
    StepKeeps(t2, NumImages, "title_length");
    StepKeeps(t3, NumTags, "title_length");
  }

  lemma SubtitleLengthAdded(t: Table)
    requires WellFormed(t) && AddFeatures(t).1.None?
    ensures "subtitle" in t.cols && "subtitle_length" in AddFeatures(t).0.cols
    ensures AddFeatures(t).0.cols["subtitle_length"] == LengthColumn(t.cols["subtitle"]).value
  {
    var t1, t2, t3 := StepsChain(t);
    StepKeeps(t, TitleLength, "subtitle");
    StepAddsTarget(t1, SubtitleLength);
    StepKeeps(t2, NumImages, "subtitle_length");
    StepKeeps(t3, NumTags, "subtitle_length");
  }

  lemma NumImagesAdded(t: Table)
    requires WellFormed(t) && AddFeatures(t).1.None?
    ensures "image_count" in t.cols && "num_images" in AddFeatures(t).0.cols
    ensures AddFeatures(t).0.cols["num_images"] == t.cols["image_count"]
  {
    var t1, t2, t3 := StepsChain(t);
    StepKeeps(t, TitleLength, "image_count");
    StepKeeps(t1, SubtitleLength, "image_count");
    StepAddsTarget(t2, NumImages);
    StepKeeps(t3, NumTags, "num_images");
  }

  lemma NumTagsAdded(t: Table)
    requires WellFormed(t) && AddFeatures(t).1.None?
    ensures "tags" in t.cols && "num_tags" in AddFeatures(t).0.cols
    ensures AddFeatures(t).0.cols["num_tags"] == TagCountColumn(t.cols["tags"])
  {
    var t1, t2, t3 := StepsChain(t);
    StepKeeps(t, TitleLength, "tags");
    StepKeeps(t1, SubtitleLength, "tags");
    StepKeeps(t2, NumImages, "tags");
    var tags := t.cols["tags"];
    assert t3.cols["tags"] == tags;
    assert Derive(Tags, tags) == Success(TagCountColumn(tags));
    StepAddsTarget(t3, NumTags);
  }

  /** One assignment made on the frame. */
  method ApplyStep(data: Frame, s: Step) returns (err: Option<Error>)
    requires data.Valid()
    modifies data
    ensures data.Valid()
    ensures StepOn(old(data.Snapshot()), s).Failure? ==>
              err == Some(StepOn(old(data.Snapshot()), s).error) && data.Snapshot() == old(data.Snapshot())
    ensures StepOn(old(data.Snapshot()), s).Success? ==>
              err == None && data.Snapshot() == StepOn(old(data.Snapshot()), s).value
  {
    if s.source !in data.cols {
      return Some(KeyError(s.source));
    }
    var col := Derive(s.derive, data.cols[s.source]);
    if col.Failure? {
      return Some(col.error);
    }
    data.SetColumn(s.target, col.value);
    return None;
  }

  /**
   * `create_features(data)`: assigns the four feature columns of `data` in
   * place, then builds X from the vectorizer's block (`text`, None when it
   * raises) and the four columns, and takes y from `success`.
   */
  method CreateFeatures(data: Frame, text: Option<TextBlock>) returns (r: Result<FeatureSet, Error>)
    requires data.Valid() && (text.Some? ==> Shaped(text.value, data.height))
    modifies data
    ensures data.Valid()
    ensures data.Snapshot() == AddFeatures(old(data.Snapshot())).0
    ensures r == FeaturesOf(old(data.Snapshot()), text)
  {
    ghost var t := data.Snapshot();
    var err := ApplyStep(data, TitleLength);
    if err.Some? {
      return Failure(err.value);
    }
    err := ApplyStep(data, SubtitleLength);
    if err.Some? {
      return Failure(err.value);
    }
    err := ApplyStep(data, NumImages);
    if err.Some? {
      return Failure(err.value);
    }
    err := ApplyStep(data, NumTags);
    if err.Some? {
      return Failure(err.value);
    }
    if text.None? {
      return Failure(VectorizerError);
    }
    FeatureColumnsAdded(t);
    var x := BuildX(data.Snapshot(), text.value);
    if "success" !in data.cols {
      return Failure(KeyError("success"));
    }
    var y := data.cols["success"];
    return Success(FeatureSet(x, y));
  }
  // ---------------------------------------------------------------------------
  // Properties of create_features

  /**
   * The assignments succeed exactly when the table has title, subtitle,
   * image_count and tags columns and every title and subtitle is text; the
   * first absent column or non-text cell, in the code's order, names the
   * exception.
   */
  lemma AddFeaturesOutcome(t: Table)
    requires WellFormed(t)
    ensures AddFeatures(t).1.None? <==>
              "title" in t.cols && AllText(t.cols["title"])
              && "subtitle" in t.cols && AllText(t.cols["subtitle"])
              && "image_count" in t.cols && "tags" in t.cols
    ensures "title" !in t.cols ==> AddFeatures(t) == (t, Some(KeyError("title")))
    ensures "title" in t.cols && !AllText(t.cols["title"]) ==> AddFeatures(t) == (t, Some(TypeError))
    ensures "title" in t.cols && AllText(t.cols["title"]) && "subtitle" !in t.cols ==>
              AddFeatures(t).1 == Some(KeyError("subtitle"))
    ensures "title" in t.cols && AllText(t.cols["title"]) && "subtitle" in t.cols && !AllText(t.cols["subtitle"]) ==>
              AddFeatures(t).1 == Some(TypeError)
    ensures "title" in t.cols && AllText(t.cols["title"]) && "subtitle" in t.cols && AllText(t.cols["subtitle"])
            && "image_count" !in t.cols ==>
              AddFeatures(t).1 == Some(KeyError("image_count"))
    ensures "title" in t.cols && AllText(t.cols["title"]) && "subtitle" in t.cols && AllText(t.cols["subtitle"])
            && "image_count" in t.cols && "tags" !in t.cols ==>
              AddFeatures(t).1 == Some(KeyError("tags"))
  {
    AddFeaturesSucceedsIff(t);
    AddFeaturesTextFailures(t);
    if "title" in t.cols && AllText(t.cols["title"]) && "subtitle" in t.cols && AllText(t.cols["subtitle"]) {
      AddFeaturesCountFailures(t);
    }
  }

  lemma AddFeaturesSucceedsIff(t: Table)
    requires WellFormed(t)
    ensures AddFeatures(t).1.None? <==>
              "title" in t.cols && AllText(t.cols["title"])
              && "subtitle" in t.cols && AllText(t.cols["subtitle"])
              && "image_count" in t.cols && "tags" in t.cols
  {
    if AddFeatures(t).1.None? {
      AddFeaturesNeeds(t);
    } else if "title" in t.cols && AllText(t.cols["title"])
              && "subtitle" in t.cols && AllText(t.cols["subtitle"])
              && "image_count" in t.cols && "tags" in t.cols {
      AddFeaturesSucceeds(t);
    }
  }

  /** When no assignment raises, every source column was there and every length was of text. */
  lemma AddFeaturesNeeds(t: Table)
    requires WellFormed(t) && AddFeatures(t).1.None?
    ensures "title" in t.cols && AllText(t.cols["title"])
    ensures "subtitle" in t.cols && AllText(t.cols["subtitle"])
    ensures "image_count" in t.cols && "tags" in t.cols
  {
    var t1, t2, t3 := StepsChain(t);
    assert LengthColumn(t.cols["title"]).Success?;
    StepKeeps(t, TitleLength, "subtitle");
    assert LengthColumn(t1.cols["subtitle"]).Success?;
    StepKeeps(t, TitleLength, "image_count");
    StepKeeps(t1, SubtitleLength, "image_count");
    StepKeeps(t, TitleLength, "tags");
    StepKeeps(t1, SubtitleLength, "tags");
    StepKeeps(t2, NumImages, "tags");
  }

  /** With every source column there and every title and subtitle text, no assignment raises. */
  lemma AddFeaturesSucceeds(t: Table)
    requires WellFormed(t)
    requires "title" in t.cols && AllText(t.cols["title"])
    requires "subtitle" in t.cols && AllText(t.cols["subtitle"])
    requires "image_count" in t.cols && "tags" in t.cols
    ensures AddFeatures(t).1.None?
  {
    var t1 := TitleLengthStep(t);
    var t2 := SubtitleLengthStep(t1);
    var t3 := NumImagesStep(t2);
    assert StepOn(t3, NumTags).Success?;
  }

  lemma TitleLengthStep(t: Table) returns (t1: Table)
    requires WellFormed(t) && "title" in t.cols && AllText(t.cols["title"])
    requires "subtitle" in t.cols && AllText(t.cols["subtitle"]) && "image_count" in t.cols && "tags" in t.cols
    ensures StepOn(t, TitleLength) == Success(t1) && WellFormed(t1)
    ensures "subtitle" in t1.cols && AllText(t1.cols["subtitle"]) && "image_count" in t1.cols && "tags" in t1.cols
  {
    assert LengthColumn(t.cols["title"]).Success?;
    t1 := StepOn(t, TitleLength).value;
    StepKeeps(t, TitleLength, "subtitle");
    StepKeeps(t, TitleLength, "image_count");
    StepKeeps(t, TitleLength, "tags");
  }

  lemma SubtitleLengthStep(t1: Table) returns (t2: Table)
    requires WellFormed(t1)
    requires "subtitle" in t1.cols && AllText(t1.cols["subtitle"]) && "image_count" in t1.cols && "tags" in t1.cols
    ensures StepOn(t1, SubtitleLength) == Success(t2) && WellFormed(t2)
    ensures "image_count" in t2.cols && "tags" in t2.cols
  {
    assert LengthColumn(t1.cols["subtitle"]).Success?;
    t2 := StepOn(t1, SubtitleLength).value;
    StepKeeps(t1, SubtitleLength, "image_count");
    StepKeeps(t1, SubtitleLength, "tags");
  }

  lemma NumImagesStep(t2: Table) returns (t3: Table)
    requires WellFormed(t2) && "image_count" in t2.cols && "tags" in t2.cols
    ensures StepOn(t2, NumImages) == Success(t3) && WellFormed(t3)
    ensures "tags" in t3.cols
  {
    t3 := StepOn(t2, NumImages).value;
    StepKeeps(t2, NumImages, "tags");
  }

  /** With title and subtitle text, a missing image_count, and then a missing tags, names the exception. */
  lemma AddFeaturesCountFailures(t: Table)
    requires WellFormed(t)
    requires "title" in t.cols && AllText(t.cols["title"])
    requires "subtitle" in t.cols && AllText(t.cols["subtitle"])
    ensures "image_count" !in t.cols ==> AddFeatures(t).1 == Some(KeyError("image_count"))
    ensures "image_count" in t.cols && "tags" !in t.cols ==> AddFeatures(t).1 == Some(KeyError("tags"))
  {
    assert LengthColumn(t.cols["title"]).Success?;
    var t1 := StepOn(t, TitleLength).value;
    StepKeeps(t, TitleLength, "subtitle");
    StepKeeps(t, TitleLength, "image_count");
    StepKeeps(t, TitleLength, "tags");
    assert LengthColumn(t1.cols["subtitle"]).Success?;
    var t2 := StepOn(t1, SubtitleLength).value;
    StepKeeps(t1, SubtitleLength, "image_count");
    StepKeeps(t1, SubtitleLength, "tags");
    if "image_count" in t.cols {
      StepKeeps(t2, NumImages, "tags");
    }
  }

  lemma AddFeaturesTextFailures(t: Table)
    requires WellFormed(t)
    ensures "title" !in t.cols ==> AddFeatures(t) == (t, Some(KeyError("title")))
    ensures "title" in t.cols && !AllText(t.cols["title"]) ==> AddFeatures(t) == (t, Some(TypeError))
    ensures "title" in t.cols && AllText(t.cols["title"]) && "subtitle" !in t.cols ==>
              AddFeatures(t).1 == Some(KeyError("subtitle"))
    ensures "title" in t.cols && AllText(t.cols["title"]) && "subtitle" in t.cols && !AllText(t.cols["subtitle"]) ==>
              AddFeatures(t).1 == Some(TypeError)
  {
    var r1 := StepOn(t, TitleLength);
    if r1.Success? {
      StepKeeps(t, TitleLength, "subtitle");
    }
  }

  /**
   * After the assignments: title_length and subtitle_length hold each row's
   * title and subtitle length, num_images is image_count, num_tags is each
   * row's tag count, and every other column is as it was.
   */
  lemma AddFeaturesColumns(t: Table)
    requires WellFormed(t) && AddFeatures(t).1.None?
    ensures var t4 := AddFeatures(t).0;
            "title" in t.cols && "subtitle" in t.cols && "image_count" in t.cols && "tags" in t.cols
            && AllText(t.cols["title"]) && AllText(t.cols["subtitle"])
            && "title_length" in t4.cols && "subtitle_length" in t4.cols
            && "num_images" in t4.cols && "num_tags" in t4.cols
            && (forall i :: 0 <= i < t.height ==> t4.cols["title_length"][i] == Int(|t.cols["title"][i].s|))
            && (forall i :: 0 <= i < t.height ==> t4.cols["subtitle_length"][i] == Int(|t.cols["subtitle"][i].s|))
            && t4.cols["num_images"] == t.cols["image_count"]
            && t4.cols["num_tags"] == TagCountColumn(t.cols["tags"])
            && (forall n :: n in t.cols && n !in NumericNames ==> n in t4.cols && t4.cols[n] == t.cols[n])
  {
    TitleLengthAdded(t);
    SubtitleLengthAdded(t);
    NumImagesAdded(t);
    NumTagsAdded(t);
    forall n | n in t.cols && n !in NumericNames
      ensures n in AddFeatures(t).0.cols && AddFeatures(t).0.cols[n] == t.cols[n]
    {
      AddFeaturesKeeps(t, n);
    }
  }

  /** X's column names: the text block's positions as text, then the four numeric names; no name twice. */
  lemma XNames(t: Table, b: TextBlock)
    requires Shaped(b, t.height)
    requires forall k :: 0 <= k < |NumericNames| ==> NumericNames[k] in t.cols
    ensures var x := BuildX(t, b);
            |x.names| == |x.columns| == b.width + |NumericNames|
            && (forall j :: 0 <= j < b.width ==> x.names[j] == Decimal(j))
            && x.names[b.width..] == NumericNames
            && Distinct(x.names)
  {
    LabelNames(b.width);
    LabelNamesDistinct(b.width);
  }

  /** The labels as text: each position's decimal text, then the four numeric names. */
  lemma LabelNames(width: nat)
    ensures var names := AsStrLabels(ConcatLabels(width));
            |names| == width + |NumericNames|
            && (forall j :: 0 <= j < width ==> names[j] == Decimal(j))
            && names[width..] == NumericNames
  {
    var ls := ConcatLabels(width);
    assert forall j :: 0 <= j < width ==> ls[j] == Position(j);
    assert forall k :: 0 <= k < |NumericNames| ==> ls[width + k] == Name(NumericNames[k]);
  }

  /** No label text is repeated. */
  lemma LabelNamesDistinct(width: nat)
    ensures Distinct(AsStrLabels(ConcatLabels(width)))
  {
    var names := AsStrLabels(ConcatLabels(width));
    forall i, j | 0 <= i < j < |names| ensures names[i] != names[j] {
      LabelPairDistinct(width, i, j);
    }
  }

  lemma LabelPairDistinct(width: nat, i: nat, j: nat)
    requires i < j < width + |NumericNames|
    ensures AsStrLabels(ConcatLabels(width))[i] != AsStrLabels(ConcatLabels(width))[j]
  {
    var names := AsStrLabels(ConcatLabels(width));
    LabelNames(width);
    if j < width {
      DecimalInjective(i, j);
    } else if i < width {
      assert names[j] == names[width..][j - width] == NumericNames[j - width];
      NumericNameIsNotDecimal(j - width, i);
    } else {
      assert names[i] == names[width..][i - width];
      assert names[j] == names[width..][j - width];
    }
  }

  /** No numeric feature name is the text of a position. */
  lemma NumericNameIsNotDecimal(k: nat, j: nat)
    requires k < |NumericNames|
    ensures NumericNames[k] != Decimal(j)
  {
    assert !IsDigit(NumericNames[k][0]);
  }

  /** The assignments leave every column other than the four features as it was, and add no other. */
  lemma AddFeaturesKeeps(t: Table, n: string)
    requires WellFormed(t) && AddFeatures(t).1.None? && n !in NumericNames
    ensures n in AddFeatures(t).0.cols <==> n in t.cols
    ensures n in t.cols ==> AddFeatures(t).0.cols[n] == t.cols[n]
  {
    var t1, t2, t3 := StepsChain(t);
    StepKeeps(t, TitleLength, n);
    StepKeeps(t1, SubtitleLength, n);
    StepKeeps(t2, NumImages, n);
    StepKeeps(t3, NumTags, n);
  }

  /** Every failure of create_features, by cause, in the order the code meets them. */
  lemma FeaturesOutcome(t: Table, text: Option<TextBlock>)
    requires WellFormed(t) && (text.Some? ==> Shaped(text.value, t.height))
    ensures FeaturesOf(t, text).Success? <==>
              AddFeatures(t).1.None? && text.Some? && "success" in t.cols
    ensures AddFeatures(t).1.Some? ==> FeaturesOf(t, text) == Failure(AddFeatures(t).1.value)
    ensures AddFeatures(t).1.None? && text.None? ==> FeaturesOf(t, text) == Failure(VectorizerError)
    ensures AddFeatures(t).1.None? && text.Some? && "success" !in t.cols ==>
              FeaturesOf(t, text) == Failure(KeyError("success"))
  {
    if AddFeatures(t).1.None? {
      AddFeaturesKeeps(t, "success");
    }
  }

  /** The columns of the matrix BuildX makes: the text block's, then the table's four feature columns, all as tall as the table. */
  lemma BuildXColumns(t: Table, b: TextBlock)
    requires WellFormed(t) && Shaped(b, t.height)
    requires forall k :: 0 <= k < |NumericNames| ==> NumericNames[k] in t.cols
    ensures var x := BuildX(t, b);
            x.height == t.height
            && |x.columns| == b.width + |NumericNames|
            && (forall j :: 0 <= j < |x.columns| ==> |x.columns[j]| == t.height)
            && (forall k :: 0 <= k < |NumericNames| ==> x.columns[b.width + k] == t.cols[NumericNames[k]])
  {
    var x := BuildX(t, b);
    forall j | 0 <= j < |x.columns| ensures |x.columns[j]| == t.height {
      if j >= b.width {
        assert x.columns[j] == t.cols[NumericNames[j - b.width]];
      }
    }
  }

  /**
   * On success X and y have one row per input row, y is the success column
   * as it was, X's columns are the text block's columns then the four
   * feature columns, and X's names are the positions then the four names.
   */
  lemma FeaturesShape(t: Table, b: TextBlock, f: FeatureSet)
    requires WellFormed(t) && Shaped(b, t.height)
    requires FeaturesOf(t, Some(b)) == Success(f)
    ensures f.x.height == t.height && |f.y| == t.height
    ensures "success" in t.cols && f.y == t.cols["success"]
    ensures |f.x.names| == |f.x.columns| == b.width + 4
    ensures forall j :: 0 <= j < b.width ==> f.x.names[j] == Decimal(j)
    ensures f.x.names[b.width..] == NumericNames
    ensures Distinct(f.x.names)
  {
    FeaturesOutcome(t, Some(b));
    AddFeaturesKeeps(t, "success");
    FeatureColumnsAdded(t);
    var t4 := AddFeatures(t).0;
    assert f == FeatureSet(BuildX(t4, b), t4.cols["success"]);
    XNames(t4, b);
  }

  /**
   * On success X's last four columns are, row for row, the title's length,
   * the subtitle's length, image_count, and the tags cell's tag count.
   */
  lemma FeaturesColumns(t: Table, b: TextBlock, f: FeatureSet)
    requires WellFormed(t) && Shaped(b, t.height)
    requires FeaturesOf(t, Some(b)) == Success(f)
    ensures |f.x.columns| == b.width + 4
    ensures forall j :: 0 <= j < |f.x.columns| ==> |f.x.columns[j]| == t.height
    ensures "title" in t.cols && "subtitle" in t.cols && "image_count" in t.cols && "tags" in t.cols
    ensures AllText(t.cols["title"]) && AllText(t.cols["subtitle"])
    ensures forall i :: 0 <= i < t.height ==> f.x.columns[b.width][i] == Int(|t.cols["title"][i].s|)
    ensures forall i :: 0 <= i < t.height ==> f.x.columns[b.width + 1][i] == Int(|t.cols["subtitle"][i].s|)
    ensures f.x.columns[b.width + 2] == t.cols["image_count"]
    ensures f.x.columns[b.width + 3] == TagCountColumn(t.cols["tags"])
  {
    FeaturesOutcome(t, Some(b));
    var t4 := AddFeatures(t).0;
    AddFeaturesColumns(t);
    assert f.x == BuildX(t4, b);
    NamedFeatureColumns(t4, b);
  }

  /** The four columns BuildX takes from the table, by name. */
  lemma NamedFeatureColumns(t: Table, b: TextBlock)
    requires WellFormed(t) && Shaped(b, t.height)
    requires "title_length" in t.cols && "subtitle_length" in t.cols && "num_images" in t.cols && "num_tags" in t.cols
    ensures var x := BuildX(t, b);
            |x.columns| == b.width + 4
            && (forall j :: 0 <= j < |x.columns| ==> |x.columns[j]| == t.height)
            && x.columns[b.width] == t.cols["title_length"]
            && x.columns[b.width + 1] == t.cols["subtitle_length"]
            && x.columns[b.width + 2] == t.cols["num_images"]
            && x.columns[b.width + 3] == t.cols["num_tags"]
  {
    assert forall k :: 0 <= k < |NumericNames| ==> NumericNames[k] in t.cols;
    BuildXColumns(t, b);
    var x := BuildX(t, b);
    assert x.columns[b.width + 1] == t.cols[NumericNames[1]];
    assert x.columns[b.width + 2] == t.cols[NumericNames[2]];
    assert x.columns[b.width + 3] == t.cols[NumericNames[3]];
  }

  // ---------------------------------------------------------------------------
  // Tag counts

  /** A text cell counts its commas plus one; any other cell counts 0. */
  lemma TagCountCommas(v: Value)
    ensures TagCount(v) == if v.Str? then Count(',', v.s) + 1 else 0
  {
    if v.Str? {
      SplitCount(v.s, ',');
    }
  }

  /** Tags without commas, joined with ",", count as themselves: "tag1,tag2" gives 2, "tag3,tag4,tag5" gives 3. */
  lemma TagCountOfJoined(tags: seq<string>)
    requires |tags| >= 1 && forall i :: 0 <= i < |tags| ==> ',' !in tags[i]
    ensures TagCount(Str(Join(tags, ','))) == |tags|
  {
    SplitJoin(tags, ',');
  }

  /**
   * The tags cell the scraper writes, `str(tags)`, for tags without commas:
   * one per tag, and 1, not 0, for an article without tags, whose cell is
   * "[]".
   */
  lemma TagCountOfWrittenTags(tags: seq<string>)
    requires forall i :: 0 <= i < |tags| ==> ',' !in tags[i]
    ensures TagCount(Str(ListRepr(tags))) == if tags == [] then 1 else |tags|
  {
    TagCountCommas(Str(ListRepr(tags)));
    ListReprCommas(tags);
    NoCommasTotal(tags);
  }

  lemma {:induction false} NoCommasTotal(tags: seq<string>)
    requires forall i :: 0 <= i < |tags| ==> ',' !in tags[i]
    ensures TotalCount(',', tags) == 0
  {
    if tags != [] {
      NoCommasTotal(tags[1..]);
    }
  }
}
