/** The display's settings record, the partial records that update it, and
    the read of the stored record at start-up. */
module ViewportSettings {
  import opened Wrappers

  /** The effective settings. `position` and `fontSize` are free strings: the
      stored record or an incoming message may carry any value, and the style
      mapping gives unknown values a fallback. */
  datatype Settings = Settings(
    enabled: bool,
    position: string,
    fontSize: string,
    textColor: string,
    bgColor: string,
    bgOpacity: real,
    alwaysShow: bool,
    hideAfter: int)

  /** The values the display starts from before anything is read. */
  const Defaults := Settings(
    enabled := true,
    position := "bottom-right",
    fontSize := "medium",
    textColor := "#FFFFFF",
    bgColor := "#000000",
    bgOpacity := 0.7,
    alwaysShow := false,
    hideAfter := 1000)

  /** A record as it arrives from storage or in a message: any field may be
      missing. */
  datatype Patch = Patch(
    enabled: Option<bool>,
    position: Option<string>,
    fontSize: Option<string>,
    textColor: Option<string>,
    bgColor: Option<string>,
    bgOpacity: Option<real>,
    alwaysShow: Option<bool>,
    hideAfter: Option<int>)

  /** The record with no fields. */
  const Empty := Patch(None, None, None, None, None, None, None, None)

  /** The record that carries every field of `s`. */
  function Whole(s: Settings): Patch {
    Patch(Some(s.enabled), Some(s.position), Some(s.fontSize), Some(s.textColor),
          Some(s.bgColor), Some(s.bgOpacity), Some(s.alwaysShow), Some(s.hideAfter))
  }

  /** Object spread `{ ...base, ...p }` restricted to the settings fields:
      a field present in `p` wins, an absent one keeps the value in `base`. */
  function Merge(base: Settings, p: Patch): (r: Settings)
    ensures p.enabled.Some? ==> r.enabled == p.enabled.value
    ensures p.enabled.None? ==> r.enabled == base.enabled
    ensures p.position.Some? ==> r.position == p.position.value
    ensures p.position.None? ==> r.position == base.position
    ensures p.fontSize.Some? ==> r.fontSize == p.fontSize.value
    ensures p.fontSize.None? ==> r.fontSize == base.fontSize
    ensures p.textColor.Some? ==> r.textColor == p.textColor.value
    ensures p.textColor.None? ==> r.textColor == base.textColor
    ensures p.bgColor.Some? ==> r.bgColor == p.bgColor.value
    ensures p.bgColor.None? ==> r.bgColor == base.bgColor
    ensures p.bgOpacity.Some? ==> r.bgOpacity == p.bgOpacity.value
    ensures p.bgOpacity.None? ==> r.bgOpacity == base.bgOpacity
    ensures p.alwaysShow.Some? ==> r.alwaysShow == p.alwaysShow.value
    ensures p.alwaysShow.None? ==> r.alwaysShow == base.alwaysShow
    ensures p.hideAfter.Some? ==> r.hideAfter == p.hideAfter.value
    ensures p.hideAfter.None? ==> r.hideAfter == base.hideAfter
  {
    Settings(
      p.enabled.GetOr(base.enabled),
      p.position.GetOr(base.position),
      p.fontSize.GetOr(base.fontSize),
      p.textColor.GetOr(base.textColor),
      p.bgColor.GetOr(base.bgColor),
      p.bgOpacity.GetOr(base.bgOpacity),
      p.alwaysShow.GetOr(base.alwaysShow),
      p.hideAfter.GetOr(base.hideAfter))
  }

  /** Spread of two partial records, `{ ...p, ...q }`: `q` wins field by field. */
  function Then(p: Patch, q: Patch): Patch {
    Patch(q.enabled.Or(p.enabled), q.position.Or(p.position), q.fontSize.Or(p.fontSize),
          q.textColor.Or(p.textColor), q.bgColor.Or(p.bgColor), q.bgOpacity.Or(p.bgOpacity),
          q.alwaysShow.Or(p.alwaysShow), q.hideAfter.Or(p.hideAfter))
  }

  /** A record with no fields changes nothing. */
  lemma MergeEmpty(base: Settings)
    ensures Merge(base, Empty) == base
  {
  }

  /** Applying the same record twice is applying it once. */
  lemma MergeIdempotent(base: Settings, p: Patch)
    ensures Merge(Merge(base, p), p) == Merge(base, p)
  {
  }

  /** Two successive merges are one merge of the combined record. */
  lemma MergeThen(base: Settings, p: Patch, q: Patch)
    ensures Merge(Merge(base, p), q) == Merge(base, Then(p, q))
  {
  }

  /** A record carrying every field replaces the settings outright, whatever
      they were before. */
  lemma MergeWholeReplaces(base: Settings, s: Settings)
    ensures Merge(base, Whole(s)) == s
  {
  }

  /** The outcome of reading the stored record. */
  datatype StoreRead =
    | ReadFailed          // the storage call threw
    | Absent              // nothing stored under the settings key
    | Stored(record: Patch)

  /** The settings after the start-up read: a stored record is merged over the
      current settings; a failed read or a missing record changes nothing. */
  function Load(current: Settings, read: StoreRead): (r: Settings)
    ensures !read.Stored? ==> r == current
    ensures read.Stored? && read.record == Empty ==> r == current
    ensures read.Stored? ==> r == Merge(current, read.record)
  {
    match read
    case Stored(record) => Merge(current, record)
    case _ => current
  }

  /** With nothing stored, or with a failed read, the display runs on the
      defaults. */
  lemma LoadFallsBackToDefaults(read: StoreRead)
    requires !read.Stored?
    ensures Load(Defaults, read) == Defaults
    ensures Load(Defaults, read).hideAfter == 1000 && Load(Defaults, read).bgOpacity == 0.7
  {
  }
}
