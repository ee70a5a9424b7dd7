/**
 * The configuration the supervisor reads: the defaults, the merge performed
 * when the saved configuration is loaded, and the acceptance step of the
 * parameter dialog (the `save_config` closure), which corrects the second
 * idle delay and normalises the tracked extensions.
 */
module Settings {
  import opened Wrappers
  import opened Strings

  datatype Config = Config(
    execPath: string,
    recordDir: string,
    cleanupHours: int,
    firstCheckDelay: int,
    secondCheckDelay: int,
    checkInterval: int,
    fileExtensions: seq<string>)

  /** The configuration used when nothing has been saved. */
  const Defaults: Config := Config("", "", 20, 10, 20, 30, [".ts", ".mp4", ".flv", ".mkv", ".avi"])

  /** What the parameter dialog hands to its save action: each numeric field is
      the result of `int()` on its text (None when `int()` rejects it), and the
      extension field is the raw text. */
  datatype ConfigForm = ConfigForm(
    cleanupHours: Option<int>,
    firstDelay: Option<int>,
    secondDelay: Option<int>,
    checkInterval: Option<int>,
    extensions: string)

  /** The configuration after the save action, and whether the dialog closed
      (it stays open, after an error message, when a number was rejected). */
  datatype Saved = Saved(config: Config, closed: bool)

  /** The second idle delay is kept when it exceeds the first; otherwise it
      becomes the first plus five seconds. */
  function CorrectSecondDelay(first: int, second: int): (r: int)
    ensures r > first
    ensures second > first ==> r == second
    ensures second <= first ==> r == first + 5
  {
    if second <= first then first + 5 else second
  }

  /** One extension as the dialog stores it: a leading dot is added when missing. */
  function NormaliseExtension(ext: string): (r: string)
    ensures StartsWith(r, ".")
    ensures |ext| <= |r| <= |ext| + 1 && r[|r| - |ext|..] == ext
    ensures StartsWith(ext, ".") ==> r == ext
  {
    if StartsWith(ext, ".") then ext else "." + ext
  }

  /** The extension field: split on commas, strip each piece, add missing dots. */
  function ParseExtensions(text: string): (r: seq<string>)
    ensures |r| == |Split(text, ',')| >= 1
    ensures forall i :: 0 <= i < |r| ==> r[i] == NormaliseExtension(Strip(Split(text, ',')[i]))
    ensures forall i :: 0 <= i < |r| ==> StartsWith(r[i], ".") && ',' !in r[i]
  {
    var pieces := Split(text, ',');
    var r := seq(|pieces|, i requires 0 <= i < |pieces| => NormaliseExtension(Strip(pieces[i])));
    assert forall i :: 0 <= i < |r| ==> ',' !in r[i] by {
      forall i | 0 <= i < |r| ensures ',' !in r[i] {
        StripIsTrimmedSlice(pieces[i]);
        var s := Strip(pieces[i]);
        assert ',' !in s;
      }
    }
    r
  }

  /** An extension list as the dialog shows it: dotted, comma-free, no
      surrounding whitespace. */
  predicate Presentable(exts: seq<string>)
  {
    forall i :: 0 <= i < |exts| ==>
      StartsWith(exts[i], ".") && ',' !in exts[i] && !IsSpace(exts[i][|exts[i]| - 1])
  }

  /** The dialog shows the extensions joined by commas; saving that text
      unchanged gives back the same list. */
  lemma ExtensionsRoundTrip(exts: seq<string>)
    requires |exts| >= 1 && Presentable(exts)
    ensures ParseExtensions(Join(exts, ",")) == exts
  {
    var text := Join(exts, ",");
    SplitJoin(exts, ',');
    assert Split(text, ',') == exts;
    var r := ParseExtensions(text);
    forall i | 0 <= i < |exts| ensures r[i] == exts[i] {
      ExtensionKept(exts[i]);
    }
  }

  /** A dotted extension without trailing whitespace is stored as it is. */
  lemma ExtensionKept(e: string)
    requires StartsWith(e, ".") && !IsSpace(e[|e| - 1])
    ensures NormaliseExtension(Strip(e)) == e
  {
    assert e[0] == '.';
    StripClean(e);
  }

  /** Saving the same text twice gives the same list: parsing is idempotent. */
  lemma ParseExtensionsIdempotent(text: string)
    ensures var exts := ParseExtensions(text);
            ParseExtensions(Join(exts, ",")) == exts
  {
    var exts := ParseExtensions(text);
    var pieces := Split(text, ',');
    forall i | 0 <= i < |exts| ensures !IsSpace(exts[i][|exts[i]| - 1]) {
      StripIsTrimmedSlice(pieces[i]);
    }
    ExtensionsRoundTrip(exts);
  }

  /** The save action as written: the numbers are converted and stored one
      field at a time, so a rejected check interval leaves the cleanup hours
      and both delays already stored. */
  function SaveConfigAsWritten(c: Config, form: ConfigForm): (r: Saved)
    ensures r.closed <==> form.firstDelay.Some? && form.secondDelay.Some?
                          && form.cleanupHours.Some? && form.checkInterval.Some?
    ensures form.firstDelay.None? || form.secondDelay.None? || form.cleanupHours.None? ==> r.config == c
    ensures form.firstDelay.Some? && form.secondDelay.Some? && form.cleanupHours.Some? ==>
              && r.config.cleanupHours == form.cleanupHours.value
              && r.config.firstCheckDelay == form.firstDelay.value
              && r.config.secondCheckDelay == CorrectSecondDelay(form.firstDelay.value, form.secondDelay.value)
              && r.config.execPath == c.execPath && r.config.recordDir == c.recordDir
    ensures !r.closed ==> r.config.checkInterval == c.checkInterval && r.config.fileExtensions == c.fileExtensions
    ensures r.closed ==> r.config.checkInterval == form.checkInterval.value
                         && r.config.fileExtensions == ParseExtensions(form.extensions)
  {
    if form.firstDelay.None? || form.secondDelay.None? || form.cleanupHours.None? then
      Saved(c, false)
    else
      var first := form.firstDelay.value;
      var c1 := c.(cleanupHours := form.cleanupHours.value,
                   firstCheckDelay := first,
                   secondCheckDelay := CorrectSecondDelay(first, form.secondDelay.value));
      if form.checkInterval.None? then
        Saved(c1, false)
      else
        Saved(c1.(checkInterval := form.checkInterval.value,
                  fileExtensions := ParseExtensions(form.extensions)), true)
  }

  /** The as-written save changes the configuration although it reports an
      error and keeps the dialog open. */
  lemma SaveConfigAsWrittenPartialUpdate()
    ensures var r := SaveConfigAsWritten(Defaults, ConfigForm(Some(1), Some(3), Some(2), None, ".ts"));
            !r.closed && r.config != Defaults
            && r.config.cleanupHours == 1 && r.config.secondCheckDelay == 8
  {
  }

  /** The save action, all or nothing: either every field is stored and the
      dialog closes, or nothing changes. */
  function SaveConfig(c: Config, form: ConfigForm): (r: Saved)
    ensures r.closed <==> form.firstDelay.Some? && form.secondDelay.Some?
                          && form.cleanupHours.Some? && form.checkInterval.Some?
    ensures !r.closed ==> r.config == c
    ensures r.closed ==>
              && r.config.execPath == c.execPath && r.config.recordDir == c.recordDir
              && r.config.cleanupHours == form.cleanupHours.value
              && r.config.firstCheckDelay == form.firstDelay.value
              && r.config.secondCheckDelay == CorrectSecondDelay(form.firstDelay.value, form.secondDelay.value)
              && r.config.secondCheckDelay > r.config.firstCheckDelay
              && r.config.checkInterval == form.checkInterval.value
              && r.config.fileExtensions == ParseExtensions(form.extensions)
              && |r.config.fileExtensions| >= 1
              && (forall i :: 0 <= i < |r.config.fileExtensions| ==> StartsWith(r.config.fileExtensions[i], "."))
  {
    if form.firstDelay.None? || form.secondDelay.None? || form.cleanupHours.None? || form.checkInterval.None? then
      Saved(c, false)
    else
      var first := form.firstDelay.value;
      Saved(c.(cleanupHours := form.cleanupHours.value,
               firstCheckDelay := first,
               secondCheckDelay := CorrectSecondDelay(first, form.secondDelay.value),
               checkInterval := form.checkInterval.value,
               fileExtensions := ParseExtensions(form.extensions)), true)
  }

  /** The two save actions differ only when the three leading numbers are
      accepted and the check interval is not. */
  lemma SaveConfigAgreesExceptPartial(c: Config, form: ConfigForm)
    ensures SaveConfigAsWritten(c, form) != SaveConfig(c, form) <==>
              && form.firstDelay.Some? && form.secondDelay.Some? && form.cleanupHours.Some?
              && form.checkInterval.None?
              && SaveConfigAsWritten(c, form).config != c
  {
  }

  /** Loading: the saved dictionary (None when the file is missing or cannot
      be read) is laid over a copy of the defaults; saved keys win. */
  function MergeConfig<V>(defaults: map<string, V>, loaded: Option<map<string, V>>): (r: map<string, V>)
    ensures loaded.None? ==> r == defaults
    ensures loaded.Some? ==> r.Keys == defaults.Keys + loaded.value.Keys
    ensures loaded.Some? ==> forall k :: k in loaded.value ==> k in r && r[k] == loaded.value[k]
    ensures forall k :: k in defaults && (loaded.None? || k !in loaded.value) ==> k in r && r[k] == defaults[k]
  {
    match loaded
    case None => defaults
    case Some(saved) => defaults + saved
  }
}
