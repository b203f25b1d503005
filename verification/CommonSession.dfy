/**
 The search for the latest session every cached asset has: engine/market_data.py
 (_latest_common_cached_session and its helpers).

 Main result (LatestCommonCachedSession): the leapfrog loop terminates and finds the greatest session
 on or before the target that every asset with any cached bar has, or fails exactly when there is
 none at or after the first session of the configured window, even when bars are stamped on days
 that are no sessions.

 Days are integers. A cached asset is the days of its bars, in any order; the calendar is the
 increasing sequence of its sessions.
 */
module CommonSession {
  import opened Common

  datatype Error = NoCommonSession | OutOfCalendar

  ghost predicate ValidCalendar(calendar: seq<int>) {
    calendar != [] && forall i, j :: 0 <= i < j < |calendar| ==> calendar[i] < calendar[j]
  }

  /** The calendar refuses days outside its range. */
  predicate InRange(calendar: seq<int>, day: int)
    requires calendar != []
  {
    calendar[0] <= day <= calendar[|calendar| - 1]
  }

  /** The position of the last session on or before a day. */
  function PreviousSession(calendar: seq<int>, day: int): (k: nat)
    requires ValidCalendar(calendar) && calendar[0] <= day
    ensures k < |calendar| && calendar[k] <= day
    ensures forall i :: k < i < |calendar| ==> calendar[i] > day
    ensures forall s :: s in calendar && s <= day ==> s <= calendar[k]
  {
    if calendar[|calendar| - 1] <= day then |calendar| - 1
    else
      var k := PreviousSession(calendar[..|calendar| - 1], day);
      assert forall i :: k < i < |calendar| - 1 ==> calendar[..|calendar| - 1][i] == calendar[i];
      k
  }

  /** The position of the first session on or after a day. */
  function NextSession(calendar: seq<int>, day: int): (k: nat)
    requires ValidCalendar(calendar) && day <= calendar[|calendar| - 1]
    ensures k < |calendar| && day <= calendar[k]
    ensures forall i :: 0 <= i < k ==> calendar[i] < day
  {
    if day <= calendar[0] then 0
    else
      assert forall i :: 0 <= i < |calendar| - 1 ==> calendar[1..][i] == calendar[i + 1];
      var k := NextSession(calendar[1..], day);
      assert forall i :: 0 < i < k + 1 ==> calendar[1..][i - 1] == calendar[i];
      k + 1
  }

  /** The latest bar on or before a day. */
  function LatestBar(bars: seq<int>, day: int): (latest: Option<int>)
    ensures latest.Some? ==> latest.value in bars && latest.value <= day
    ensures latest.Some? ==> forall b :: b in bars && b <= day ==> b <= latest.value
    ensures latest.None? ==> forall b :: b in bars ==> b > day
  {
    if bars == [] then None
    else
      assert bars == [bars[0]] + bars[1..];
      var rest := LatestBar(bars[1..], day);
      if bars[0] > day then rest
      else if rest.Some? && rest.value > bars[0] then rest
      else Some(bars[0])
  }

  /** _latest_cached_session_on_or_before: nothing cached, or the session of the latest bar. */
  function LatestCachedSession(bars: seq<int>, calendar: seq<int>, day: int): (session: Result<Option<int>, Error>)
    requires ValidCalendar(calendar)
    ensures session.Err? ==> forall b :: b in bars && b <= day ==> b < calendar[0]
    ensures session.Ok? && session.value.None? ==> forall b :: b in bars ==> b > day
    ensures session.Ok? && session.value.Some? ==>
              session.value.value in calendar && session.value.value <= day
              && forall b :: b in bars && b in calendar && b <= day ==> b <= session.value.value
  {
    var latest := LatestBar(bars, day);
    if latest.None? then Ok(None)
    else if latest.value < calendar[0] then Err(OutOfCalendar)
    else
      var k := PreviousSession(calendar, latest.value);
      assert forall b :: b in calendar && b <= latest.value ==> b <= calendar[k];
      Ok(Some(calendar[k]))
  }

  /** The assets with any cached bar. */
  function Existing(assets: seq<seq<int>>): (existing: seq<seq<int>>)
    ensures forall bars :: bars in existing <==> bars in assets && bars != []
  {
    if assets == [] then []
    else if assets[0] == [] then Existing(assets[1..])
    else [assets[0]] + Existing(assets[1..])
  }

  /** A session that every asset in the cache has a bar on. */
  ghost predicate IsCommon(assets: seq<seq<int>>, calendar: seq<int>, s: int) {
    s in calendar && forall bars :: bars in assets && bars != [] ==> s in bars
  }

  lemma CommonOfExisting(assets: seq<seq<int>>, calendar: seq<int>)
    ensures forall s :: IsCommon(assets, calendar, s) <==> IsCommon(Existing(assets), calendar, s)
  {
    hide Existing;
  }

  lemma CommonAreSessions(existing: seq<seq<int>>, calendar: seq<int>)
    requires ValidCalendar(calendar)
    ensures forall s :: IsCommon(existing, calendar, s) ==> s in calendar && s >= calendar[0]
  {
  }

  /** The smallest of the candidate and the latest cached sessions. */
  method LatestOfAll(existing: seq<seq<int>>, calendar: seq<int>, candidate: int) returns (r: Result<int, Error>)
    requires ValidCalendar(calendar) && candidate in calendar && forall bars :: bars in existing ==> bars != []
    ensures r.Ok? ==> r.value in calendar && r.value <= candidate
    ensures r.Ok? ==> forall s :: IsCommon(existing, calendar, s) && s <= candidate ==> s <= r.value
    ensures r.Err? ==> forall s :: IsCommon(existing, calendar, s) ==> s > candidate
  {
    var smallest := candidate;
    var missing := false;
    ghost var absent := [];
    for i := 0 to |existing|
      invariant smallest in calendar && smallest <= candidate
      invariant missing ==> absent in existing && forall b :: b in absent ==> b > candidate
      invariant forall s :: IsCommon(existing, calendar, s) && s <= candidate ==> s <= smallest
    {
      var latest := LatestCachedSession(existing[i], calendar, candidate);
      if latest.Err? {
        assert existing[i] in existing;
        return Err(latest.error);
      }
      if latest.value.None? {
        missing := true;
        absent := existing[i];
      } else if latest.value.value < smallest {
        smallest := latest.value.value;
      }
    }
    if missing {
      return Err(NoCommonSession);
    }
    return Ok(smallest);
  }

  method AllHave(existing: seq<seq<int>>, calendar: seq<int>, session: int) returns (all: bool)
    requires session in calendar && forall bars :: bars in existing ==> bars != []
    ensures all <==> IsCommon(existing, calendar, session)
  {
    for i := 0 to |existing|
      invariant forall j :: 0 <= j < i ==> session in existing[j]
    {
      if session !in existing[i] {
        assert existing[i] in existing;
        return false;
      }
    }
    return true;
  }

  /** The window of sessions the search may answer from. */
  ghost predicate InWindow(start: Option<int>, target: int, s: int) {
    s <= target && (start.Some? ==> s >= start.value)
  }

  ghost predicate IsLatestCommon(assets: seq<seq<int>>, calendar: seq<int>, start: Option<int>, target: int, s: int) {
    IsCommon(assets, calendar, s) && InWindow(start, target, s)
    && forall other :: IsCommon(assets, calendar, other) && other <= target ==> other <= s
  }

  /** The window starts outside the calendar, or no common session lies in it. */
  ghost predicate NoAnswer(assets: seq<seq<int>>, calendar: seq<int>, start: Option<int>, target: int)
    requires calendar != []
  {
    (start.Some? && !InRange(calendar, start.value))
    || forall s :: IsCommon(assets, calendar, s) ==> !InWindow(start, target, s)
  }

  method LatestCommonCachedSession(assets: seq<seq<int>>, calendar: seq<int>, start: Option<int>, target: int)
    returns (r: Result<int, Error>)
    requires ValidCalendar(calendar) && target in calendar
    ensures (forall bars :: bars in assets ==> bars == []) ==> r == Ok(target)
    ensures (exists bars :: bars in assets && bars != []) && r.Ok? ==>
              IsLatestCommon(assets, calendar, start, target, r.value)
    ensures (exists bars :: bars in assets && bars != []) ==> (r.Err? <==> NoAnswer(assets, calendar, start, target))
  {
    hide Existing, PreviousSession, NextSession, IsCommon;
    var existing := Existing(assets);
    CommonOfExisting(assets, calendar);
    CommonAreSessions(existing, calendar);
    if existing == [] {
      return Ok(target);
    }
    assert existing[0] in existing;
    var minimum := None;
    if start.Some? {
      if !InRange(calendar, start.value) {
        return Err(OutOfCalendar);
      }
      minimum := Some(calendar[NextSession(calendar, start.value)]);
      assert forall s :: s in calendar && s >= start.value ==> s >= minimum.value;
    }
    var candidate := target;
    while true
      invariant candidate in calendar && candidate <= target
      invariant forall s :: IsCommon(existing, calendar, s) && s <= target ==> s <= candidate
      decreases candidate - calendar[0]
    {
      var latest := LatestOfAll(existing, calendar, candidate);
      if latest.Err? {
        return Err(latest.error);
      }
      candidate := latest.value;
      if minimum.Some? && candidate < minimum.value {
        return Err(NoCommonSession);
      }
      var found := AllHave(existing, calendar, candidate);
      if found {
        return Ok(candidate);
      }
      if candidate == calendar[0] {
        return Err(OutOfCalendar);
      }
      candidate := calendar[PreviousSession(calendar, candidate - 1)];
    }
  }
}
