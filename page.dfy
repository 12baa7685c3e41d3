/**
 * The page of dash/app.js held the way the script holds it: its module-level
 * variables, the properties of its DOM elements, and the browser's table of
 * live interval timers, all updated in place by the event handlers. Each
 * method is proved to perform the transition of the same name in `Viewer`.
 */
module ViewerPage {
  import opened Wrappers
  import Viewer

  /**
   * The page as the script keeps it: module-level variables, the DOM
   * elements' properties, and the browser's table of live interval timers.
   */
  class Page {
    var imageList: seq<string>
    var maxIndex: int
    var intervalId: Option<nat>
    var timers: map<nat, int>
    var nextHandle: nat
    var sliderValue: int
    var sliderMax: int
    var photoSrc: string
    var labelText: string
    var playDisabled: bool
    var pauseDisabled: bool
    var speedValue: int
    ghost var shown: int

    /** At most one timer is live and `intervalId` names it; photo and label show `shown`. */
    ghost predicate Valid()
      reads this
    {
      && (intervalId.None? ==> timers == map[])
      && (intervalId.Some? ==> timers.Keys == {intervalId.value})
      && (forall h :: h in timers ==> h < nextHandle)
      && photoSrc == Viewer.PhotoSrc(imageList, shown)
      && labelText == Viewer.LabelText(shown, |imageList|)
    }

    ghost function State(): Viewer.View
      reads this
      requires Valid()
    {
      Viewer.View(imageList, maxIndex, sliderMax, sliderValue, shown,
           if intervalId.Some? then Some(timers[intervalId.value]) else None,
           playDisabled, pauseDisabled, speedValue)
    }

    /** The page once the index file has loaded (the `then` callback of the fetch). */
    constructor Load(data: seq<string>, speed: int)
      ensures Valid() && State() == Viewer.Load(data, speed)
      ensures |timers| == 0
    {
      imageList := data;
      maxIndex := |data| - 1;
      sliderMax := |data| - 1;
      intervalId := None;
      timers := map[];
      nextHandle := 0;
      sliderValue := 0;
      shown := 0;
      photoSrc := Viewer.PhotoSrc(data, 0);
      labelText := Viewer.LabelText(0, |data|);
      playDisabled := false;
      pauseDisabled := false;
      speedValue := speed;
      new;
      UpdateImage(maxIndex);
      ToggleButtons();
    }

    method UpdateImage(index: int)
      requires Valid()
      modifies this
      ensures Valid() && State() == Viewer.UpdateImage(old(State()), index)
      ensures photoSrc == Viewer.PhotoSrc(imageList, index)
      ensures labelText == Viewer.LabelText(index, |imageList|)
      ensures timers == old(timers) && nextHandle == old(nextHandle)
    {
      sliderValue := index;
      photoSrc := Viewer.PhotoSrc(imageList, index);
      labelText := Viewer.LabelText(index, |imageList|);
      shown := index;
    }

    /** The slider's `input` event. */
    method Scrub(value: int)
      requires Valid() && 0 <= value <= sliderMax
      modifies this
      ensures Valid() && State() == Viewer.Scrub(old(State()), value)
      ensures timers == old(timers) && nextHandle == old(nextHandle)
    {
      UpdateImage(value);
    }

    method ChangeImage(direction: int)
      requires Valid()
      modifies this
      ensures Valid() && State() == Viewer.ChangeImage(old(State()), direction)
      ensures timers == old(timers) && nextHandle == old(nextHandle)
    {
      var newValue := sliderValue + direction;
      if 0 <= newValue < |imageList| {
        UpdateImage(newValue);
      }
    }

    method ToggleButtons()
      requires Valid()
      modifies this`playDisabled, this`pauseDisabled
      ensures Valid() && State() == Viewer.ToggleButtons(old(State()))
    {
      var isPlaying := intervalId.Some?;
      playDisabled := isPlaying;
      pauseDisabled := !isPlaying;
    }

    /** The browser's `clearInterval`: a null or stale handle is ignored. */
    method ClearInterval(id: Option<nat>)
      modifies this`timers
      ensures timers == if id.Some? then old(timers) - {id.value} else old(timers)
    {
      if id.Some? {
        timers := timers - {id.value};
      }
    }

    /** The browser's `setInterval`: a fresh handle for a new live timer. */
    method SetInterval(period: int) returns (id: nat)
      modifies this`timers, this`nextHandle
      ensures id == old(nextHandle) && nextHandle == id + 1
      ensures timers == old(timers)[id := period]
    {
      id := nextHandle;
      timers := timers[id := period];
      nextHandle := nextHandle + 1;
    }

    /** `playSlideShow`: clears the old timer before starting the new one. */
    method Play()
      requires Valid()
      modifies this
      ensures Valid() && State() == Viewer.Play(old(State()))
      ensures |timers| == 1
    {
      var interval := speedValue;
      ClearInterval(intervalId);
      if sliderValue == maxIndex {
        sliderValue := 0;
      }
      var id := SetInterval(interval);
      intervalId := Some(id);
      ToggleButtons();
    }

    /** The live timer fires; only a live timer can fire. */
    method Tick()
      requires Valid() && intervalId.Some?
      modifies this
      ensures Valid() && State() == Viewer.Tick(old(State()))
    {
      if sliderValue < |imageList| - 1 {
        ChangeImage(1);
      } else {
        ClearInterval(intervalId);
        intervalId := None;
        ToggleButtons();
      }
    }

    /** The pause button's `click` event. */
    method Pause()
      requires Valid()
      modifies this
      ensures Valid() && State() == Viewer.Pause(old(State()))
      ensures |timers| == 0
    {
      ClearInterval(intervalId);
      intervalId := None;
      ToggleButtons();
    }

    /** The speed selector's `change` event, after the selector took the value `speed`. */
    method ChangeSpeed(speed: int)
      requires Valid()
      modifies this
      ensures Valid() && State() == Viewer.ChangeSpeed(old(State()), speed)
    {
      speedValue := speed;
      if intervalId.Some? {
        Play();
      }
    }
  }
}
