/** The negotiation of initial vectors for telnet's DES feedback modes (telnet/libtelnet/enc_des.c): what
    one side does, with the state kept as bit flags. */
module TelnetNegotiation {
  import opened Wrappers
  import opened TelnetFeedback

  const NO_SEND_IV: bv8 := 1
  const NO_RECV_IV: bv8 := 2
  const NO_KEYID: bv8 := 4
  const IN_PROGRESS: bv8 := 7
  const SUCCESS: bv8 := 0
  const FAILED: bv8 := 0xFF   // -1

  const FB64_IV: Octet := 1
  const FB64_IV_OK: Octet := 2
  const FB64_IV_BAD: Octet := 3

  const ZEROS: Block := [0, 0, 0, 0, 0, 0, 0, 0]

  /** DIR_DECRYPT and DIR_ENCRYPT. */
  datatype Dir = Decrypt | Encrypt

  /** The payloads of the suboptions that one side sends: IS and REPLY, and the announcement of a key id. */
  datatype Message = Is(data: seq<Octet>) | Reply(data: seq<Octet>) | KeyIdOffer(id: seq<Octet>)

  datatype Stream = Stream(iv: Block, key: Option<Block>, output: Block, index: nat)

  /** `struct fb`, less its output buffer. */
  datatype Party = Party(
    tempFeed: Block, needStart: bool, validKey: bool,
    decState: bv8, encState: bv8, dec: Stream, enc: Stream)

  datatype Event =
    | StartCalled(dir: Dir, seed: Option<Block>)            // None: no random octets could be made
    | SessionKey(key: Option<Block>, seed: Option<Block>)   // None: no key, or not a DES key
    | KeyIdCalled(dir: Dir, id: seq<Octet>)
    | IsReceived(data: seq<Octet>)
    | ReplyReceived(data: seq<Octet>)

  datatype Outcome = Outcome(party: Party, ret: bv8, sent: seq<Message>)

  function Fresh(): Party {
    Party(ZEROS, false, false, FAILED, FAILED, Stream(ZEROS, None, ZEROS, 0), Stream(ZEROS, None, ZEROS, 0))
  }

  function WithIv(s: Stream, seed: Block): Stream { s.(iv := seed, output := seed, index := 8) }

  function WithKey(s: Stream, key: Block): Stream { s.(key := Some(key), output := s.iv, index := 8) }

  function Unfailed(state: bv8): bv8 { if state == FAILED then IN_PROGRESS else state }

  function StartSpec(p: Party, dir: Dir, seed: Option<Block>): Outcome {
    match dir
    case Decrypt => var st := Unfailed(p.decState); Outcome(p.(decState := st), st, [])
    case Encrypt =>
      if p.encState != FAILED && p.encState & NO_SEND_IV == 0 then Outcome(p, p.encState, []) else
      var st := Unfailed(p.encState);
      if !p.validKey then Outcome(p.(needStart := true, encState := st), st, []) else
      match seed
      case None => Outcome(p, FAILED, [])
      case Some(iv) =>
        var st' := (st & !NO_SEND_IV) | NO_RECV_IV;
        Outcome(p.(tempFeed := iv, encState := st'), st', [Is([FB64_IV] + iv)])
  }

  function IsSpec(p: Party, data: seq<Octet>): Outcome {
    var bad := [Reply([FB64_IV_BAD])];
    if data == [] || data[0] != FB64_IV then Outcome(p, p.decState, bad)
    else if |data| != 9 then Outcome(p.(decState := FAILED), FAILED, bad)
    else Outcome(p.(dec := WithIv(p.dec, data[1..]), decState := IN_PROGRESS), IN_PROGRESS, [Reply([FB64_IV_OK])])
  }

  function ReplySpec(p: Party, data: seq<Octet>): Outcome {
    if data != [] && data[0] == FB64_IV_OK then
      var st := Unfailed(p.encState) & !NO_RECV_IV;
      Outcome(p.(enc := WithIv(p.enc, p.tempFeed), encState := st), st, [KeyIdOffer([0])])
    else if data != [] && data[0] == FB64_IV_BAD then
      Outcome(p.(tempFeed := ZEROS, enc := WithIv(p.enc, ZEROS), encState := FAILED), FAILED, [])
    else Outcome(p.(encState := FAILED), FAILED, [])
  }

  function SessionSpec(p: Party, key: Option<Block>, seed: Option<Block>): Outcome {
    match key
    case None => Outcome(p, SUCCESS, [])
    case Some(k) =>
      var q := p.(validKey := true, enc := WithKey(p.enc, k), dec := WithKey(p.dec, k));
      if q.needStart then
        var o := StartSpec(q.(needStart := false), Encrypt, seed);
        Outcome(o.party, SUCCESS, o.sent)
      else Outcome(q, SUCCESS, [])
  }

  function KeyIdSpec(p: Party, dir: Dir, id: seq<Octet>): Outcome {
    var st := if dir == Decrypt then p.decState else p.encState;
    if id != [0] then Outcome(p, st, []) else
    var st' := Unfailed(st) & !NO_KEYID;
    Outcome(if dir == Decrypt then p.(decState := st') else p.(encState := st'), st', [])
  }

  function Handle(p: Party, e: Event): Outcome {
    match e
    case StartCalled(dir, seed) => StartSpec(p, dir, seed)
    case SessionKey(key, seed) => SessionSpec(p, key, seed)
    case KeyIdCalled(dir, id) => KeyIdSpec(p, dir, id)
    case IsReceived(data) => IsSpec(p, data)
    case ReplyReceived(data) => ReplySpec(p, data)
  }

  // ---------- the functions that work on the static structure ----------

  class Fb {
    var tempFeed: Block
    var needStart: bool
    var validKey: bool
    var state: seq<bv8>
    var streams: seq<Stream>

    ghost predicate Valid()
      reads this
    {
      |state| == 2 && |streams| == 2
    }

    ghost function View(): Party
      requires Valid()
      reads this
    {
      Party(tempFeed, needStart, validKey, state[0], state[1], streams[0], streams[1])
    }

    constructor ()
      ensures Valid() && View() == Fresh()
      ensures tempFeed == [0, 0, 0, 0, 0, 0, 0, 0] && !needStart && !validKey && state == [0xFF, 0xFF]
      ensures forall d :: 0 <= d < 2 ==>
                streams[d] == Stream([0, 0, 0, 0, 0, 0, 0, 0], None, [0, 0, 0, 0, 0, 0, 0, 0], 0)
    {
      tempFeed, needStart, validKey := ZEROS, false, false;
      state := [FAILED, FAILED];
      streams := [Stream(ZEROS, None, ZEROS, 0), Stream(ZEROS, None, ZEROS, 0)];
    }

    method StreamIv(seed: Block, d: nat)
      requires Valid() && d < 2
      modifies this`streams
      ensures Valid() && streams == old(streams)[d := WithIv(old(streams[d]), seed)]
    {
      streams := streams[d := streams[d].(iv := seed)];
      streams := streams[d := streams[d].(output := seed, index := 8)];
    }

    method StreamKey(key: Block, d: nat)
      requires Valid() && d < 2
      modifies this`streams
      ensures Valid() && streams == old(streams)[d := WithKey(old(streams[d]), key)]
    {
      streams := streams[d := streams[d].(key := Some(key))];
      streams := streams[d := streams[d].(output := streams[d].iv, index := 8)];
    }

    /** `fb64_start` */
    method Start(dir: Dir, seed: Option<Block>) returns (ret: bv8, sent: seq<Message>)
      requires Valid()
      modifies this`tempFeed, this`needStart, this`state
      ensures Valid() && Outcome(View(), ret, sent) == StartSpec(old(View()), dir, seed)
      ensures dir == Decrypt ==>
                state == old(state)[0 := if old(state[0]) == 0xFF then 7 else old(state[0])] && ret == state[0]
                && sent == [] && tempFeed == old(tempFeed) && needStart == old(needStart)
      ensures dir == Encrypt && old(state[1]) != 0xFF && old(state[1]) & 1 == 0 ==>
                View() == old(View()) && ret == old(state[1]) && sent == []
      ensures dir == Encrypt && (old(state[1]) == 0xFF || old(state[1]) & 1 == 1) && !old(validKey) ==>
                state == old(state)[1 := if old(state[1]) == 0xFF then 7 else old(state[1])] && ret == state[1]
                && sent == [] && tempFeed == old(tempFeed) && needStart
      ensures dir == Encrypt && (old(state[1]) == 0xFF || old(state[1]) & 1 == 1) && old(validKey) ==>
                match seed
                case None => View() == old(View()) && ret == 0xFF && sent == []
                case Some(iv) =>
                  state == old(state)[1 := if old(state[1]) == 0xFF then 6 else (old(state[1]) & !1) | 2]
                  && ret == state[1] && sent == [Is([1] + iv)] && tempFeed == iv && needStart == old(needStart)
    {
      sent := [];
      var d := if dir == Decrypt then 0 else 1;
      var st := state[d];
      if dir == Decrypt {
        if st == FAILED {
          st := IN_PROGRESS;
        }
      } else {
        var skip := false;
        if st == FAILED {
          st := IN_PROGRESS;
        } else if st & NO_SEND_IV == 0 {
          skip := true;
        }
        if !skip {
          if !validKey {
            needStart := true;
          } else {
            st := (st & !NO_SEND_IV) | NO_RECV_IV;
            if seed == None {
              return FAILED, [];
            }
            tempFeed := seed.value;
            sent := [Is([FB64_IV] + tempFeed)];
          }
        }
      }
      state := state[d := st];
      ret := st;
    }

    /** `fb64_is` */
    method IsOption(data: seq<Octet>) returns (ret: bv8, sent: seq<Message>)
      requires Valid()
      modifies this`streams, this`state
      ensures Valid() && Outcome(View(), ret, sent) == IsSpec(old(View()), data)
      ensures if |data| == 9 && data[0] == 1 then
                streams == old(streams)[0 := Stream(data[1..], old(streams[0].key), data[1..], 8)]
                && state == old(state)[0 := 7] && sent == [Reply([2])]
              else
                streams == old(streams) && sent == [Reply([3])]
                && state == if data != [] && data[0] == 1 then old(state)[0 := 0xFF] else old(state)
      ensures ret == state[0]
    {
      var st := state[0];
      if |data| >= 1 && data[0] == FB64_IV {
        if |data| - 1 != 8 {
          st := FAILED;
          sent := [Reply([FB64_IV_BAD])];
        } else {
          StreamIv(data[1..], 0);
          sent := [Reply([FB64_IV_OK])];
          st := IN_PROGRESS;
        }
      } else {
        sent := [Reply([FB64_IV_BAD])];
      }
      state := state[0 := st];
      ret := st;
    }

    /** `fb64_reply` */
    method ReplyOption(data: seq<Octet>) returns (ret: bv8, sent: seq<Message>)
      requires Valid()
      modifies this`tempFeed, this`streams, this`state
      ensures Valid() && Outcome(View(), ret, sent) == ReplySpec(old(View()), data)
      ensures ret == state[1]
      ensures data != [] && data[0] == 2 ==>
                streams == old(streams)[1 := Stream(old(tempFeed), old(streams[1].key), old(tempFeed), 8)]
                && state == old(state)[1 := if old(state[1]) == 0xFF then 5 else old(state[1]) & !2]
                && sent == [KeyIdOffer([0])] && tempFeed == old(tempFeed)
      ensures data == [] || data[0] != 2 ==> state == old(state)[1 := 0xFF] && sent == []
      ensures data != [] && data[0] == 3 ==>
                tempFeed == [0, 0, 0, 0, 0, 0, 0, 0]
                && streams == old(streams)[1 := Stream(tempFeed, old(streams[1].key), tempFeed, 8)]
      ensures data == [] || data[0] !in [2, 3] ==> streams == old(streams) && tempFeed == old(tempFeed)
    {
      sent := [];
      var st := state[1];
      if |data| < 1 {
        st := FAILED;
      } else if data[0] == FB64_IV_OK {
        StreamIv(tempFeed, 1);
        if st == FAILED {
          st := IN_PROGRESS;
        }
        st := st & !NO_RECV_IV;
        sent := [KeyIdOffer([0])];
      } else if data[0] == FB64_IV_BAD {
        tempFeed := ZEROS;
        StreamIv(tempFeed, 1);
        st := FAILED;
      } else {
        st := FAILED;
      }
      state := state[1 := st];
      ret := st;
    }

    /** `fb64_session` */
    method Session(key: Option<Block>, seed: Option<Block>) returns (sent: seq<Message>)
      requires Valid()
      modifies this
      ensures Valid() && Outcome(View(), SUCCESS, sent) == SessionSpec(old(View()), key, seed)
      ensures key == None ==> View() == old(View()) && sent == []
      ensures key != None ==>
                validKey && !needStart && state[0] == old(state[0])
                && forall d :: 0 <= d < 2 ==>
                     streams[d] == Stream(old(streams[d].iv), key, old(streams[d].iv), 8)
      ensures sent == if key != None && seed != None && old(needStart && (state[1] == 0xFF || state[1] & 1 == 1))
                      then [Is([1] + seed.value)] else []
    {
      sent := [];
      if key == None {
        return;
      }
      validKey := true;
      StreamKey(key.value, 1);
      StreamKey(key.value, 0);
      if needStart {
        needStart := false;
        var ret;
        ret, sent := Start(Encrypt, seed);
      }
    }

    /** `fb64_keyid` */
    method KeyId(dir: Dir, id: seq<Octet>) returns (ret: bv8)
      requires Valid()
      modifies this`state
      ensures Valid() && Outcome(View(), ret, []) == KeyIdSpec(old(View()), dir, id)
      ensures var d := if dir == Decrypt then 0 else 1;
              ret == state[d]
              && state == if id != [0] then old(state)
                          else old(state)[d := if old(state[d]) == 0xFF then 3 else old(state[d]) & !4]
    {
      var d := if dir == Decrypt then 0 else 1;
      var st := state[d];
      if |id| != 1 || id[0] != 0 {
        return st;
      }
      if st == FAILED {
        st := IN_PROGRESS;
      }
      st := st & !NO_KEYID;
      state := state[d := st];
      ret := st;
    }
  }
}
