/**
 DefrostHeaterOnTimeCounter: one per evaporator, it counts the minutes its heater has been on in
 the saved HeaterOn state. Its two callbacks are proved equal to the reactions that the defrost
 machine is composed with.
 */
module HeaterOnTimeCounting {
  import opened Options
  import opened Units
  import opened DefrostTypes
  import opened DefrostModel

  class HeaterOnTimeCounter {
    var vote: Vote<bool>       // the resolved heater vote: the defrost vote wins
    var defrostState: Leaf     // the saved defrost state
    var minutes: uint8         // defrostHeaterOnTimeErd
    var ticks: Option<nat>     // the periodic timer: milliseconds into the current minute

    ghost function Cell(): HeaterCell
      reads this
    {
      HeaterCell(vote, minutes, ticks)
    }

    constructor (vote: Vote<bool>, defrostState: Leaf)
      ensures this.vote == vote && this.defrostState == defrostState
      ensures Cell() == React(HeaterCell(vote, 0, None), defrostState)
    {
      this.vote := vote;
      this.defrostState := defrostState;
      minutes := 0;
      ticks := if defrostState == HeaterOn && vote.value then Some(0) else None;
    }

    method ResetHeaterOnTimeCounter()
      modifies this`minutes
      ensures minutes == 0
    {
      minutes := 0;
    }

    /** The heater's vote or the saved state has changed. */
    method DataModelChanged()
      modifies this`minutes, this`ticks
      ensures Cell() == React(old(Cell()), defrostState)
    {
      if vote.value && defrostState == HeaterOn {
        ticks := Some(0);
      } else if !vote.value && defrostState == HeaterOn {
        ticks := None;
      } else if !vote.value && defrostState != HeaterOn {
        ticks := None;
        ResetHeaterOnTimeCounter();
      }
    }

    method HeaterVoteWritten(v: Vote<bool>)
      modifies this
      ensures defrostState == old(defrostState)
      ensures Cell() == VoteCell(old(Cell()), v, defrostState)
    {
      if vote != v {
        vote := v;
        DataModelChanged();
      }
    }

    method DefrostStateWritten(l: Leaf)
      modifies this
      ensures defrostState == l
      ensures Cell() == if old(defrostState) == l then old(Cell()) else React(old(Cell()), l)
    {
      if defrostState != l {
        defrostState := l;
        DataModelChanged();
      }
    }

    /** The periodic timer's callback; the timer runs on. */
    method IncrementHeaterOnTimeCounter()
      modifies this`minutes, this`ticks
      ensures Cell() == CountMinute(old(Cell()))
    {
      ticks := Some(0);
      var count: int := minutes;
      count := (count + 1) % 0x100;
      minutes := count;
    }
  }
}
