/** The select reactor: the sets handed to select are cached and rebuilt only when a flag says so. */
module SelectReactors {

  datatype Event = IN | PRI | OUT | ERR | HUP

  class Channel {
    const socket: nat
    var events: set<Event>

    constructor (socket: nat)
      ensures this.socket == socket && events == {}
    {
      this.socket, events := socket, {};
    }
  }

  /** What select answers: it fails, or narrows the three sets down to the ready sockets. */
  datatype Selected = Error | Ready(readable: set<nat>, writable: set<nat>, failing: set<nat>)

  class ReactorSelect {
    var channels: map<nat, Channel>
    var readReset: bool
    var writeReset: bool
    var exceptReset: bool
    var readBackup: set<nat>
    var writeBackup: set<nat>
    var exceptBackup: set<nat>
    var socketMax: nat

    /** The sockets of the channels that wait for an event, computed from scratch. */
    ghost function Waiting(e: Event): set<nat>
      reads this`channels, channels.Values
    {
      set s | s in channels && e in channels[s].events
    }

    /** A cached set that is not marked for rebuilding is what a computation from scratch gives. */
    ghost predicate Valid()
      reads this, channels.Values
    {
      && Filed()
      && (!readReset ==> readBackup == Waiting(IN))
      && (!writeReset ==> writeBackup == Waiting(OUT))
      && (!exceptReset ==> exceptBackup == channels.Keys && forall s <- channels :: s <= socketMax)
    }

    /** Valid, except that the cache may not know the events of one channel. */
    ghost predicate ValidBut(channel: Channel)
      reads this, channels.Values
    {
      && (forall s <- channels :: channels[s].socket == s && (channels[s] == channel || channels[s].events != {}))
      && (!readReset ==> readBackup <= channels.Keys)
      && (!readReset ==> forall s <- channels :: channels[s] != channel ==> (s in readBackup <==> IN in channels[s].events))
      && (!writeReset ==> writeBackup <= channels.Keys)
      && (!writeReset ==> forall s <- channels :: channels[s] != channel ==> (s in writeBackup <==> OUT in channels[s].events))
      && (!exceptReset ==> exceptBackup == channels.Keys && forall s <- channels :: s <= socketMax)
    }

    constructor ()
      ensures Valid() && channels == map[]
    {
      channels := map[];
      readReset, writeReset, exceptReset := false, false, false;
      readBackup, writeBackup, exceptBackup, socketMax := {}, {}, {}, 0;
    }

    /** A channel's events change and the reactor is told. The two make one step: between them the
        cache may be stale. */
    method ChangeEvents(channel: Channel, events: set<Event>)
      requires Valid()
      modifies this, channel
      ensures Valid() && channel.events == events
      ensures channels == if channel.socket !in old(channels) then (if events == {} then old(channels) else old(channels)[channel.socket := channel])
                          else if events == {} then old(channels) - {channel.socket} else old(channels)
    {
      channel.events := events;
      UpdateChannel(channel);
    }

    method UpdateChannel(channel: Channel)
      requires ValidBut(channel)
      modifies this
      ensures Valid()
      ensures channels == if channel.socket !in old(channels) then (if channel.events == {} then old(channels) else old(channels)[channel.socket := channel])
                          else if channel.events == {} then old(channels) - {channel.socket} else old(channels)
    {
      if channel.socket in channels {
        if channel.events == {} {
          readReset, writeReset, exceptReset := true, true, true;
          channels := channels - {channel.socket};
        } else {
          readReset, writeReset := true, true;
        }
      } else if channel.events != {} {
        channels := channels[channel.socket := channel];
        readReset, writeReset, exceptReset := true, true, true;
      }
    }

    method RemoveChannel(channel: Channel)
      requires Valid()
      modifies this
      ensures Valid() && channels == old(channels) - {channel.socket}
    {
      if channel.socket in channels {
        readReset, writeReset, exceptReset := true, true, true;
        channels := channels - {channel.socket};
      }
    }

    lemma Visited(want: set<nat>, left: set<nat>, s: nat)
      requires s in left
      ensures want - (left - {s}) == if s in want then (want - left) + {s} else want - left
    {}

    /** Goes over all channels and rebuilds the sets that are asked for. */
    method Scan(r: bool, w: bool, e: bool) returns (inputs: set<nat>, outputs: set<nat>, all: set<nat>)
      modifies this`socketMax
      ensures inputs == if r then Waiting(IN) else {}
      ensures outputs == if w then Waiting(OUT) else {}
      ensures all == if e then channels.Keys else {}
      ensures e ==> forall s <- channels :: s <= socketMax
      ensures !e ==> socketMax == old(socketMax)
    {
      inputs, outputs, all := {}, {}, {};
      var max: nat := if e then 0 else socketMax;
      var left := channels.Keys;
      ghost var keys, wantIn, wantOut := channels.Keys, Waiting(IN), Waiting(OUT);
      while left != {}
        invariant left <= keys
        invariant forall s :: s in inputs <==> r && s in wantIn && s !in left
        invariant forall s :: s in outputs <==> w && s in wantOut && s !in left
        invariant forall s :: s in all <==> e && s in keys && s !in left
        invariant e ==> forall s <- all :: s <= max
        invariant !e ==> max == socketMax
        decreases left
      {
        var s :| s in left;
        assert s in wantIn <==> IN in channels[s].events;
        assert s in wantOut <==> OUT in channels[s].events;
        if r && IN in channels[s].events {
          inputs := inputs + {s};
        }
        if w && OUT in channels[s].events {
          outputs := outputs + {s};
        }
        if e {
          all := all + {s};
          if s > max {
            max := s;
          }
        }
        left := left - {s};
      }
      socketMax := max;
    }

    lemma WaitingSays()
      ensures forall s <- channels ::
        (s in Waiting(IN) <==> IN in channels[s].events) && (s in Waiting(OUT) <==> OUT in channels[s].events)
    {}

    lemma WithinBound()
      requires forall s <- channels :: s <= socketMax
      ensures forall s <- Waiting(IN) + Waiting(OUT) + channels.Keys :: s <= socketMax
    {}

    ghost predicate Filed()
      reads this`channels, channels.Values
    {
      forall s <- channels :: channels[s].socket == s && channels[s].events != {}
    }

    lemma AllCached()
      requires Filed() && readBackup == Waiting(IN) && writeBackup == Waiting(OUT) && exceptBackup == channels.Keys
      requires forall s <- channels :: s <= socketMax
      ensures Valid()
    {}

    /** The sets for the next call of select, from the cache or rebuilt: always what a computation
        from scratch gives, with every member below the bound. */
    method BuildSets() returns (inputs: set<nat>, outputs: set<nat>, all: set<nat>)
      requires Valid()
      modifies this
      ensures Valid() && channels == old(channels) && !readReset && !writeReset && !exceptReset
      ensures inputs == Waiting(IN) && outputs == Waiting(OUT) && all == channels.Keys
      ensures forall s <- channels :: (s in inputs <==> IN in channels[s].events) && (s in outputs <==> OUT in channels[s].events)
      ensures forall s <- inputs + outputs + all :: s <= socketMax
    {
      hide Waiting, Filed;
      ghost var wantIn, wantOut, filed := Waiting(IN), Waiting(OUT), Filed();
      inputs, outputs, all := {}, {}, {};
      var r, w, e := readReset, writeReset, exceptReset;
      assert !r ==> readBackup == wantIn;
      assert !w ==> writeBackup == wantOut;
      assert !e ==> exceptBackup == channels.Keys && forall s <- channels :: s <= socketMax;
      hide Valid;
      if r || w || e {
        inputs, outputs, all := Scan(r, w, e);
        assert (r ==> inputs == wantIn) && (w ==> outputs == wantOut);
        readReset, writeReset, exceptReset := false, false, false;
      }
      if r { readBackup := inputs; } else { inputs := readBackup; }
      if w { writeBackup := outputs; } else { outputs := writeBackup; }
      if e { exceptBackup := all; } else { all := exceptBackup; }
      assert filed == Filed() && wantIn == Waiting(IN) && wantOut == Waiting(OUT);
      AllCached();
      WithinBound();
      WaitingSays();
    }

    static function Mask(answer: Selected, s: nat): (m: set<Event>)
      requires answer.Ready?
      ensures (IN in m <==> s in answer.readable) && (OUT in m <==> s in answer.writable) && (HUP in m <==> s in answer.failing)
      ensures PRI !in m && ERR !in m
    {
      (if s in answer.readable then {IN} else {}) + (if s in answer.writable then {OUT} else {}) + (if s in answer.failing then {HUP} else {})
    }

    /** Each channel with a ready socket is collected once, with exactly the events it is ready for. */
    ghost predicate Collected(answer: Selected, ready: seq<(Channel, set<Event>)>, within: set<nat>)
      requires answer.Ready?
      reads this`channels
    {
      && (forall i :: 0 <= i < |ready| ==>
            var s := ready[i].0.socket; s in within && s in channels && channels[s] == ready[i].0 && ready[i].1 == Mask(answer, s) && ready[i].1 != {})
      && (forall s <- within :: s in channels && Mask(answer, s) != {} ==> (channels[s], Mask(answer, s)) in ready)
      && (forall i, j :: 0 <= i < j < |ready| ==> ready[i].0 != ready[j].0)
    }

    method Collect(answer: Selected) returns (ready: seq<(Channel, set<Event>)>)
      requires Valid() && answer.Ready?
      ensures Collected(answer, ready, channels.Keys)
    {
      ready := [];
      hide Collected, Mask;
      NoneCollected(answer);
      var left := channels.Keys;
      assert channels.Keys - left == {};
      while left != {}
        invariant left <= channels.Keys && Collected(answer, ready, channels.Keys - left)
        decreases left
      {
        var s :| s in left;
        Visited(channels.Keys, left, s);
        var mask := Mask(answer, s);
        if mask == {} {
          NotCollected(answer, ready, channels.Keys - left, s);
        } else {
          CollectedStep(answer, ready, channels.Keys - left, s);
          ready := [(channels[s], mask)] + ready;
        }
        left := left - {s};
      }
      assert channels.Keys - left == channels.Keys;
    }

    lemma NoneCollected(answer: Selected)
      requires answer.Ready?
      ensures Collected(answer, [], {})
    {}

    lemma NotCollected(answer: Selected, ready: seq<(Channel, set<Event>)>, within: set<nat>, s: nat)
      requires answer.Ready? && Collected(answer, ready, within) && s in channels && Mask(answer, s) == {}
      ensures Collected(answer, ready, within + {s})
    {}

    lemma CollectedStep(answer: Selected, ready: seq<(Channel, set<Event>)>, within: set<nat>, s: nat)
      requires Valid() && answer.Ready? && Collected(answer, ready, within) && s in channels && s !in within && Mask(answer, s) != {}
      ensures Collected(answer, [(channels[s], Mask(answer, s))] + ready, within + {s})
    {}

    /** One poll up to the dispatch. Select narrows the sets it is given. */
    method Poll(answer: Selected) returns (ok: bool, ready: seq<(Channel, set<Event>)>)
      requires Valid()
      requires answer.Ready? ==> answer.readable <= Waiting(IN) && answer.writable <= Waiting(OUT) && answer.failing <= channels.Keys
      modifies this
      ensures Valid() && channels == old(channels) && ok == answer.Ready?
      ensures if ok then Collected(answer, ready, channels.Keys) else ready == []
      ensures ok ==> forall i :: 0 <= i < |ready| ==>
        var s, events := ready[i].0.socket, ready[i].1;
        && (IN in events <==> s in answer.readable) && (OUT in events <==> s in answer.writable)
        && (HUP in events <==> s in answer.failing) && PRI !in events && ERR !in events
      ensures ok ==> forall s <- channels :: s in answer.readable + answer.writable + answer.failing ==>
        exists i :: 0 <= i < |ready| && ready[i].0 == channels[s]
    {
      var inputs, outputs, all := BuildSets();
      ready := [];
      if answer.Error? {
        return false, [];
      }
      ready := Collect(answer);
      ok := true;
    }
  }
}
