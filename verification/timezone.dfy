/**
 Index time-zone handling of shared/data_module.py: localising a naive index
 to UTC and converting an aware index to the instrument's zone. The zone
 arithmetic itself (daylight-saving offsets) is the given `Localizer`.
 */
module Timezone {
  import opened Outcomes
  import opened Bars

  /** `df.index.tz_localize('UTC')` on a naive index: the stored instants are read as UTC. */
  function LocalizeUtc(f: Frame, toLocal: Localizer): (r: Frame)
    ensures r.zone.Some?
    ensures f.zone.Some? ==> r == f
    ensures |r.bars| == |f.bars| && r.cols == f.cols
    ensures Instants(r.bars) == Instants(f.bars)
  {
    if f.zone.Some? then f
    else Frame(f.cols, Some("UTC"),
      seq(|f.bars|, i requires 0 <= i < |f.bars| => f.bars[i].(local := toLocal("UTC", f.bars[i].instant))))
  }

  /** `_convert_to_local_time`: refuses a naive index, otherwise relabels every
      row with its reading in `target`, keeping instants, values and order. */
  function ConvertToLocalTime(f: Frame, target: string, toLocal: Localizer): (r: Result<Frame>)
    ensures r.Err? <==> f.zone.None?
    ensures r.Err? ==> r.error == NaiveIndex
    ensures r.Ok? ==> r.value.zone == Some(target) && r.value.cols == f.cols
    ensures r.Ok? ==> |r.value.bars| == |f.bars|
    ensures r.Ok? ==> forall i :: 0 <= i < |f.bars| ==>
      r.value.bars[i].local == toLocal(target, f.bars[i].instant) &&
      r.value.bars[i] == f.bars[i].(local := r.value.bars[i].local)
  {
    if f.zone.None? then Err(NaiveIndex)
    else Ok(Frame(f.cols, Some(target),
      seq(|f.bars|, i requires 0 <= i < |f.bars| => f.bars[i].(local := toLocal(target, f.bars[i].instant)))))
  }

  /** Conversion neither drops, duplicates nor reorders rows: instants, and hence
      their order and distinctness, are those of the input. */
  lemma ConversionKeepsInstants(f: Frame, target: string, toLocal: Localizer)
    requires f.zone.Some?
    ensures Instants(ConvertToLocalTime(f, target, toLocal).value.bars) == Instants(f.bars)
    ensures TimeOrdered(f.bars) ==> TimeOrdered(ConvertToLocalTime(f, target, toLocal).value.bars)
    ensures (forall i, j :: 0 <= i < j < |f.bars| ==> f.bars[i].instant != f.bars[j].instant) ==>
      var out := ConvertToLocalTime(f, target, toLocal).value.bars;
      forall i, j :: 0 <= i < j < |out| ==> out[i].instant != out[j].instant
  {
  }
}
