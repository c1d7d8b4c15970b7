/**
 * model.py: the same preprocessing and feature derivation as
 * medium_analysis/model.py, written as a top-level script that assigns the
 * columns of one global table in turn and then builds X and y.
 */
module ModelScript {
  import opened Wrappers
  import opened PyText
  import opened Frames
  import opened Features

  /** What the script computes: the loaded table preprocessed, then its features; or the exception raised. */
  function Pipeline(loaded: Option<Table>, text: Option<TextBlock>): Result<FeatureSet, Error>
    requires loaded.Some? ==> WellFormed(loaded.value)
    requires loaded.Some? && text.Some? ==> Shaped(text.value, loaded.value.height)
  {
    match LoadAndPreprocess(loaded)
    case Failure(e) => Failure(e)
    case Success(t) => FeaturesOf(t, text)
  }

  /**
   * The script from `pd.read_csv` to `y = data['success']`: `loaded` is what
   * `read_csv` loads (None: no such file) and `text` the vectorizer's block
   * (None when `fit_transform` raises).
   */
  method RunScript(loaded: Option<Table>, text: Option<TextBlock>) returns (r: Result<FeatureSet, Error>)
    requires loaded.Some? ==> WellFormed(loaded.value)
    requires loaded.Some? && text.Some? ==> Shaped(text.value, loaded.value.height)
    ensures r == Pipeline(loaded, text)
  {
    if loaded.None? {
      return Failure(FileNotFound);
    }
    var data := new Frame(loaded.value);
    var err := CleanSubtitles(data);
    if err.Some? {
      return Failure(err.value);
    }
    ghost var pre := data.Snapshot();
    err := DeriveFeatures(data);
    if err.Some? {
      return Failure(err.value);
    }
    if text.None? {
      return Failure(VectorizerError);
    }
    FeatureColumnsAdded(pre);
    var x := BuildX(data.Snapshot(), text.value);
    if "success" !in data.cols {
      return Failure(KeyError("success"));
    }
    return Success(FeatureSet(x, data.cols["success"]));
  }

  /** Lines 11-14: fill the missing subtitles with "", then lower-case every subtitle. */
  method CleanSubtitles(data: Frame) returns (err: Option<Error>)
    requires data.Valid()
    modifies data
    ensures data.Valid()
    ensures err.None? <==> Preprocess(old(data.Snapshot())).Success?
    ensures err.Some? ==> err.value == Preprocess(old(data.Snapshot())).error
    ensures err.None? ==> data.Snapshot() == Preprocess(old(data.Snapshot())).value
  {
    if "subtitle" !in data.cols {
      return Some(KeyError("subtitle"));
    }
    data.SetColumn("subtitle", FillNa(data.cols["subtitle"], ""));
    var low := LowerColumn(data.cols["subtitle"]);
    if low.Failure? {
      return Some(low.error);
    }
    data.SetColumn("subtitle", low.value);
    return None;
  }

  /** Lines 17-20: the four feature columns, each assigned in turn until one raises (see Features.ApplyStep). */
  method DeriveFeatures(data: Frame) returns (err: Option<Error>)
    requires data.Valid()
    modifies data
    ensures data.Valid()
    ensures data.Snapshot() == AddFeatures(old(data.Snapshot())).0
    ensures err == AddFeatures(old(data.Snapshot())).1
  {
    err := ApplyStep(data, TitleLength);
    if err.Some? {
      return;
    }
    err := ApplyStep(data, SubtitleLength);
    if err.Some? {
      return;
    }
    err := ApplyStep(data, NumImages);
    if err.Some? {
      return;
    }
    err := ApplyStep(data, NumTags);
  }

  // ---------------------------------------------------------------------------
  // Properties, stated on the loaded table

  /** The script fails with FileNotFound without a file, and with KeyError("subtitle") without a subtitle column. */
  lemma ScriptEarlyFailures(loaded: Option<Table>, text: Option<TextBlock>)
    requires loaded.Some? ==> WellFormed(loaded.value)
    requires loaded.Some? && text.Some? ==> Shaped(text.value, loaded.value.height)
    ensures loaded.None? ==> Pipeline(loaded, text) == Failure(FileNotFound)
    ensures loaded.Some? && "subtitle" !in loaded.value.cols ==> Pipeline(loaded, text) == Failure(KeyError("subtitle"))
    ensures loaded.Some? && "subtitle" in loaded.value.cols
            && (exists i :: 0 <= i < loaded.value.height && !loaded.value.cols["subtitle"][i].Missing?
                                                        && !loaded.value.cols["subtitle"][i].Str?) ==>
              Pipeline(loaded, text) == Failure(AttributeError)
  {
    if loaded.Some? {
      PreprocessSucceedsIff(loaded.value);
    }
  }

  /**
   * When the script gets to y: X has one row per loaded row, its names are
   * the text block's positions then the four feature names, all distinct,
   * and y is the loaded success column.
   */
  lemma ScriptShape(t: Table, b: TextBlock, f: FeatureSet)
    requires WellFormed(t) && Shaped(b, t.height)
    requires Pipeline(Some(t), Some(b)) == Success(f)
    ensures "success" in t.cols && f.y == t.cols["success"]
    ensures f.x.height == t.height && |f.x.names| == |f.x.columns| == b.width + 4
    ensures f.x.names[b.width..] == NumericNames && Distinct(f.x.names)
  {
    var p := Preprocess(t).value;
    PreprocessKeepsOthers(t);
    FeaturesShape(p, b, f);
  }

  /**
   * X's last four columns, row for row: the title's length, the subtitle's
   * length (0 for a missing subtitle, which became ""), image_count, and
   * the tag count of the tags cell, all read from the loaded table.
   */
  lemma ScriptFeatureColumns(t: Table, b: TextBlock, f: FeatureSet)
    requires WellFormed(t) && Shaped(b, t.height)
    requires Pipeline(Some(t), Some(b)) == Success(f)
    ensures |f.x.columns| == b.width + 4
    ensures forall j :: 0 <= j < |f.x.columns| ==> |f.x.columns[j]| == t.height
    ensures "title" in t.cols && "subtitle" in t.cols && "image_count" in t.cols && "tags" in t.cols
    ensures AllText(t.cols["title"])
    ensures forall i :: 0 <= i < t.height ==> t.cols["subtitle"][i].Missing? || t.cols["subtitle"][i].Str?
    ensures forall i :: 0 <= i < t.height ==> f.x.columns[b.width][i] == Int(|t.cols["title"][i].s|)
    ensures forall i :: 0 <= i < t.height ==>
              f.x.columns[b.width + 1][i] == Int(if t.cols["subtitle"][i].Missing? then 0 else |t.cols["subtitle"][i].s|)
    ensures f.x.columns[b.width + 2] == t.cols["image_count"]
    ensures f.x.columns[b.width + 3] == TagCountColumn(t.cols["tags"])
  {
    var p := Preprocess(t).value;
    assert FeaturesOf(p, Some(b)) == Success(f);
    PreprocessKeepsOthers(t);
    FeaturesColumns(p, b, f);
    SubtitleLengths(t);
    PreprocessSucceedsIff(t);
  }

  /** A preprocessed subtitle is as long as the loaded one, or empty where the loaded one was missing. */
  lemma SubtitleLengths(t: Table)
    requires WellFormed(t) && Preprocess(t).Success?
    ensures var sub := Preprocess(t).value.cols["subtitle"];
            forall i :: 0 <= i < t.height ==>
              sub[i].Str? && |sub[i].s| == if t.cols["subtitle"][i].Missing? then 0 else |t.cols["subtitle"][i].s|
  {
    PreprocessedSubtitles(t);
  }
}
