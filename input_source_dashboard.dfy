/**
 * The input-source dashboard: the priority table, the rule that decides which tile
 * is highlighted, the dispatch of the controller's push messages onto the current
 * input, and the guard around the WebSocket handle.
 */
module InputSourceDashboard {
  import opened Wrappers
  import opened JsString
  import opened FrameClassifier
  import opened FallbackDetector

  // ---------------------------------------------------------------- data model

  datatype ComponentId = VideoGrabber | Color | ProtoServer | Effect
  {
    /** The identifier as the controller spells it. */
    function Name(): string
    {
      match this
      case VideoGrabber => "VIDEOGRABBER"
      case Color => "COLOR"
      case ProtoServer => "PROTOSERVER"
      case Effect => "EFFECT"
    }
  }

  datatype PriorityValue = PriorityValue(hsl: Option<seq<real>>, rgb: Option<seq<int>>)

  /** One entry of the controller's priority table. */
  datatype Priority = Priority(active: bool, componentId: ComponentId, origin: string,
                               owner: Option<string>, priority: int, visible: bool,
                               isFallBack: Option<bool>, value: Option<PriorityValue>)

  /** A dashboard tile: its key and caption (the `label` of the source) with the priority entry it stands for. */
  datatype InputTile = InputTile(key: string, caption: string, entry: Priority)

  /** The three tiles, in display order. */
  const Tiles: seq<InputTile> := [
    InputTile("hdmi", "HDMI",
              Priority(false, VideoGrabber, "System", Some("USB Video: USB Video (video0)"), 240, false, None, None)),
    InputTile("network", "Network",
              Priority(false, Color, "JsonRpc@::1", None, 100, false, None, Some(PriorityValue(Some([]), Some([]))))),
    InputTile("grabber", "Grabber",
              Priority(false, ProtoServer, "Proto@::ffff:192.168.0.118", None, 50, false, None, None))
  ]

  /** The synthetic entry a live (non-fallback) LED frame reports. */
  const VideoGrabberInput :=
    Priority(false, VideoGrabber, "System", Some("USB Video: USB Video (video0)"), 240, false, None, None)

  /** An already-parsed push message, told apart by its `command` field. */
  datatype WsResponse =
    | PrioritiesUpdate(success: bool, tan: int, priorities: seq<Priority>, prioritiesAutoselect: bool)
    | LedStreamUpdate(success: bool, tan: int, leds: seq<int>)
    /** Any other push message; `command` is neither of the two handled tags. */
    | Unhandled(command: string)

  // ---------------------------------------------------------------- tile highlighting

  /**
   * `decideIsSelectedComponent`: case-insensitive equality, where "color" also accepts
   * "effect". Equal names always match, and only "color" accepts a different name.
   */
  function DecideIsSelectedComponent(source1: string, source2: string): (r: bool)
    ensures Lower(source1) == Lower(source2) ==> r
    ensures r && Lower(source1) != Lower(source2) ==> Lower(source1) == "color" && Lower(source2) == "effect"
    ensures Lower(source1) == "color" && Lower(source2) == "effect" ==> r
  {
    if Lower(source1) == "color" && (Lower(source2) == "color" || Lower(source2) == "effect") then true
    else Lower(source1) == Lower(source2)
  }

  /**
   * The highlighting rule of a tile: there is a current input and the tile's component
   * accepts it. For the dashboard's own tiles that is the tile meant for the input's component.
   */
  function IsSelected(currentInput: Option<Priority>, tile: InputTile): (r: bool)
    ensures currentInput.None? ==> !r
    ensures currentInput.Some? && tile in Tiles ==> (r <==> tile.key == TileKeyFor(currentInput.value.componentId))
  {
    match currentInput
    case None => false
    case Some(p) =>
      TileAccepts(0, p.componentId);
      TileAccepts(1, p.componentId);
      TileAccepts(2, p.componentId);
      DecideIsSelectedComponent(tile.entry.componentId.Name(), p.componentId.Name())
  }

  /** Which tile stands for which component, as the dashboard intends it. */
  function TileKeyFor(c: ComponentId): string
  {
    match c
    case VideoGrabber => "hdmi"
    case Color => "network"
    case Effect => "network"
    case ProtoServer => "grabber"
  }

  lemma LowerNames()
    ensures Lower("VIDEOGRABBER") == "videograbber"
    ensures Lower("COLOR") == "color"
    ensures Lower("PROTOSERVER") == "protoserver"
    ensures Lower("EFFECT") == "effect"
  {
    assert Lower("VIDEOGRABBER") == "videograbber";
    assert Lower("COLOR") == "color";
    assert Lower("PROTOSERVER") == "protoserver";
    assert Lower("EFFECT") == "effect";
  }

  /**
   * Over the four component ids the rule is the identity plus one extra pair: a colour
   * tile also accepts an effect...
   */
  lemma DecideIsSelectedTable(x: ComponentId, y: ComponentId)
    ensures DecideIsSelectedComponent(x.Name(), y.Name()) <==> x == y || (x == Color && y == Effect)
  {
    LowerNames();
  }

  /** ...it is reflexive... */
  lemma DecideIsSelectedReflexive(a: string)
    ensures DecideIsSelectedComponent(a, a)
  {
  }

  /** ...it ignores case... */
  lemma DecideIsSelectedIgnoresCase(a: string, b: string)
    ensures DecideIsSelectedComponent(a, b) == DecideIsSelectedComponent(Lower(a), Lower(b))
  {
    LowerIdempotent(a);
    LowerIdempotent(b);
  }

  /** ...and it is not symmetric: a colour tile accepts an effect, an effect tile rejects a colour. */
  lemma DecideIsSelectedAsymmetric()
    ensures DecideIsSelectedComponent("COLOR", "EFFECT")
    ensures !DecideIsSelectedComponent("EFFECT", "COLOR")
  {
    LowerNames();
  }

  /** Tile `i` accepts component `c` exactly when it is the tile meant for `c`. */
  lemma TileAccepts(i: nat, c: ComponentId)
    requires i < |Tiles|
    ensures DecideIsSelectedComponent(Tiles[i].entry.componentId.Name(), c.Name()) <==> Tiles[i].key == TileKeyFor(c)
  {
    LowerNames();
  }

  /**
   * Every current input highlights exactly the tile meant for its component: the HDMI
   * tile for the grabber, the network tile for a colour or an effect, the grabber tile
   * for the protocol server.
   */
  lemma HighlightsExactlyOneTile(p: Priority)
    ensures forall i :: 0 <= i < |Tiles| ==> (IsSelected(Some(p), Tiles[i]) <==> Tiles[i].key == TileKeyFor(p.componentId))
    ensures |set i | 0 <= i < |Tiles| && IsSelected(Some(p), Tiles[i])| == 1
  {
    forall i | 0 <= i < |Tiles| {
      TileAccepts(i, p.componentId);
    }
    var k := match p.componentId
             case VideoGrabber => 0
             case Color => 1
             case Effect => 1
             case ProtoServer => 2;
    assert (set i | 0 <= i < |Tiles| && IsSelected(Some(p), Tiles[i])) == {k};
  }

  /** Without a current input no tile is highlighted. */
  lemma NoInputHighlightsNothing(tile: InputTile)
    ensures !IsSelected(None, tile)
  {
  }

  // ---------------------------------------------------------------- priorities

  /** The `find` test of a priorities update: a visible entry that is not the grabber. */
  predicate IsActiveCandidate(p: Priority)
  {
    p.componentId != VideoGrabber && p.visible
  }

  predicate IsFirstCandidate(ps: seq<Priority>, i: int)
  {
    0 <= i < |ps| && IsActiveCandidate(ps[i]) && forall j :: 0 <= j < i ==> !IsActiveCandidate(ps[j])
  }

  /** `priorities.find(...)`: the first visible non-grabber entry, in received order. */
  function FindActivePriority(ps: seq<Priority>): (r: Option<Priority>)
    ensures r.None? <==> forall i :: 0 <= i < |ps| ==> !IsActiveCandidate(ps[i])
    ensures r.Some? ==> exists i :: IsFirstCandidate(ps, i) && ps[i] == r.value
  {
    if ps == [] then None
    else if IsActiveCandidate(ps[0]) then
      assert IsFirstCandidate(ps, 0);
      Some(ps[0])
    else
      var r := FindActivePriority(ps[1..]);
      assert forall i :: IsFirstCandidate(ps[1..], i) ==> IsFirstCandidate(ps, i + 1);
      r
  }

  /** A visible grabber entry ahead of a colour source is skipped. */
  lemma GrabberEntryIsSkipped(grabber: Priority, other: Priority)
    requires grabber.componentId == VideoGrabber && IsActiveCandidate(other)
    ensures FindActivePriority([grabber, other]) == Some(other)
  {
  }

  // ---------------------------------------------------------------- dispatch

  /** The part of the dashboard's state that push messages change. */
  datatype DashState = DashState(currentInput: Option<Priority>, ledPositions: Option<seq<LedPosition>>)

  /**
   * The effect of `handleWsResponse` on the state; `refresh` is the outcome the
   * position refresh would have if the frame needs one.
   */
  function Dispatch(s: DashState, msg: WsResponse, refresh: Option<seq<LedPosition>>): (r: DashState)
    // Only an LED frame's refresh can replace the cached table, with the refreshed one.
    ensures r.ledPositions == s.ledPositions || (msg.LedStreamUpdate? && refresh.Some? && r.ledPositions == refresh)
    // An LED frame sets the current input only to null or to the synthetic grabber entry.
    ensures msg.LedStreamUpdate? ==> r.currentInput in {s.currentInput, None, Some(VideoGrabberInput)}
    // A priorities update installs one of the received entries.
    ensures msg.PrioritiesUpdate? && r.currentInput.Some? ==> r.currentInput.value in msg.priorities
    ensures msg.Unhandled? ==> r == s
  {
    match msg
    case PrioritiesUpdate(_, _, ps, _) => s.(currentInput := FindActivePriority(ps))
    case LedStreamUpdate(_, _, flat) =>
      (match s.ledPositions
       case None => s
       case Some(table) =>
         (match TableUsed(table, flat, refresh)
          case None => s
          case Some(used) =>
            DashState(if FrameIsFallback(used, flat) then None else Some(VideoGrabberInput),
                      if SizeMatches(table, flat) then s.ledPositions else Some(used))))
    case Unhandled(_) => s
  }

  /** A priorities update leaves the position cache alone and installs only a visible non-grabber entry. */
  lemma PrioritiesUpdateSelects(s: DashState, msg: WsResponse, refresh: Option<seq<LedPosition>>)
    requires msg.PrioritiesUpdate?
    ensures var s' := Dispatch(s, msg, refresh);
            && s'.ledPositions == s.ledPositions
            && (s'.currentInput.None? <==> forall i :: 0 <= i < |msg.priorities| ==> !IsActiveCandidate(msg.priorities[i]))
            && (s'.currentInput.Some? ==> s'.currentInput.value in msg.priorities && IsActiveCandidate(s'.currentInput.value))
            && (s'.currentInput.Some? ==> exists i :: IsFirstCandidate(msg.priorities, i) && msg.priorities[i] == s'.currentInput.value)
  {
    var r := FindActivePriority(msg.priorities);
    if r.Some? {
      var i :| IsFirstCandidate(msg.priorities, i) && msg.priorities[i] == r.value;
    }
  }

  /**
   * A handled LED frame sets the current input to the synthetic grabber entry exactly
   * when the frame is not the fallback pattern, and to null when it is; a frame that
   * needed a refresh leaves the refreshed table in the cache.
   */
  lemma LedFrameOutcome(s: DashState, flat: seq<int>, tan: int, success: bool, refresh: Option<seq<LedPosition>>)
    requires s.ledPositions.Some?
    requires SizeMatches(s.ledPositions.value, flat) || refresh.Some?
    ensures var used := if SizeMatches(s.ledPositions.value, flat) then s.ledPositions.value else refresh.value;
            var s' := Dispatch(s, LedStreamUpdate(success, tan, flat), refresh);
            && s'.ledPositions == Some(used)
            && (s'.currentInput == Some(VideoGrabberInput) <==> !FrameIsFallback(used, flat))
            && (s'.currentInput.None? <==> FrameIsFallback(used, flat))
  {
  }

  /**
   * An LED frame changes nothing before a position table is cached (an empty table
   * counts as cached) or when its refresh fails; other commands change nothing.
   */
  lemma NothingChanges(s: DashState, msg: WsResponse, refresh: Option<seq<LedPosition>>)
    requires || msg.Unhandled?
             || (msg.LedStreamUpdate? && s.ledPositions.None?)
             || (msg.LedStreamUpdate? && s.ledPositions.Some? && !SizeMatches(s.ledPositions.value, msg.leds) && refresh.None?)
    ensures Dispatch(s, msg, refresh) == s
  {
  }

  /** Handling the same message twice (with the same refresh outcome) is handling it once. */
  lemma DispatchIdempotent(s: DashState, msg: WsResponse, refresh: Option<seq<LedPosition>>)
    ensures Dispatch(Dispatch(s, msg, refresh), msg, refresh) == Dispatch(s, msg, refresh)
  {
  }

  /**
   * End to end: with a fitting cached table whose top group has at least twelve LEDs, an
   * all-white frame is reported as live HDMI input.
   */
  lemma AllWhiteFrameIsLiveVideo(s: DashState, flat: seq<int>, refresh: Option<seq<LedPosition>>)
    requires s.ledPositions.Some? && SizeMatches(s.ledPositions.value, flat)
    requires forall k :: 0 <= k < |flat| ==> flat[k] == 255
    requires |Classify(s.ledPositions.value, flat, DefaultThresholds).directions.top| >= 12
    ensures Dispatch(s, LedStreamUpdate(true, 1, flat), refresh).currentInput == Some(VideoGrabberInput)
  {
    var table := s.ledPositions.value;
    var leds := AnnotatedLeds(table, flat);
    var top := EdgeGroup(leds, Top, DefaultThresholds);
    forall i | 0 <= i < |top| ensures top[i].color !in Palette {
      GroupMemberColor(table, flat, DefaultThresholds, Top, i);
      var n := top[i].ledInd;
      assert top[i].color == flat[3 * n..3 * n + 3];
      assert top[i].color == [255, 255, 255];
    }
    NoPaletteColorsIsNotFallback(top);
  }

  /**
   * End to end, the other way: with a fitting cached table whose top and bottom groups
   * are each made of whole palette blocks, the calibration frame clears the current input.
   */
  lemma CalibrationFrameClearsInput(s: DashState, flat: seq<int>, refresh: Option<seq<LedPosition>>,
                                    mTop: nat, mBottom: nat)
    requires s.ledPositions.Some? && SizeMatches(s.ledPositions.value, flat)
    requires var d := Classify(s.ledPositions.value, flat, DefaultThresholds).directions;
             && |d.top| == 6 * mTop && (forall b :: 0 <= b < mTop ==> IsPaletteBlock(d.top[6 * b..6 * b + 6]))
             && |d.bottom| == 6 * mBottom && (forall b :: 0 <= b < mBottom ==> IsPaletteBlock(d.bottom[6 * b..6 * b + 6]))
    ensures Dispatch(s, LedStreamUpdate(true, 1, flat), refresh).currentInput.None?
  {
    var d := Classify(s.ledPositions.value, flat, DefaultThresholds).directions;
    PaletteBlocksAreFallback(d.top, mTop);
    PaletteBlocksAreFallback(d.bottom, mBottom);
  }

  // ---------------------------------------------------------------- socket

  datatype ReadyState = Connecting | Open | Closing | Closed

  /** The outbound commands the dashboard's buttons send. */
  datatype OutMessage =
    | LedColors(tan: int, subcommand: string)
    | ServerInfo(tan: int, subscribe: seq<string>)

  /** A WebSocket as the dashboard sees it: its ready state and the frames sent on it. */
  class Socket {
    var readyState: ReadyState
    var sent: seq<OutMessage>

    constructor ()
      ensures readyState == Connecting && sent == []
    {
      readyState := Connecting;
      sent := [];
    }

    /** The transport finished the opening handshake; `onopen` fires after this. */
    method Opened()
      requires readyState == Connecting
      modifies this
      ensures readyState == Open && sent == old(sent)
    {
      readyState := Open;
    }

    method Send(m: OutMessage)
      requires readyState == Open
      modifies this
      ensures readyState == Open && sent == old(sent) + [m]
    {
      sent := sent + [m];
    }

    /** `close()` starts the closing handshake; on a closing or closed socket it does nothing. */
    method Close()
      modifies this
      ensures sent == old(sent)
      ensures readyState == if old(readyState) in {Connecting, Open} then Closing else old(readyState)
    {
      if readyState == Connecting || readyState == Open {
        readyState := Closing;
      }
    }

    /** The transport finished closing, or the connection dropped; `onclose` fires after this. */
    method Finished()
      modifies this
      ensures readyState == Closed && sent == old(sent)
    {
      readyState := Closed;
    }
  }

  /** The dashboard component: the socket reference, the position cache and the current input. */
  class Dashboard {
    var wsRef: Socket?
    var ledPositionRef: Option<seq<LedPosition>>
    var currentInput: Option<Priority>

    constructor ()
      ensures wsRef == null && ledPositionRef.None? && currentInput.None?
    {
      wsRef := null;
      ledPositionRef := None;
      currentInput := None;
    }

    function State(): DashState
      reads this
    {
      DashState(currentInput, ledPositionRef)
    }

    /**
     * `getLedPositionData`: `response` is the outcome of the describe request (`None`
     * for a failed request or a reply without LED table); a table, even an empty one,
     * replaces the cache and is returned.
     */
    method GetLedPositionData(response: Option<seq<LedPosition>>) returns (r: Option<seq<LedPosition>>)
      modifies this`ledPositionRef
      ensures r == response
      ensures ledPositionRef == if response.Some? then response else old(ledPositionRef)
    {
      r := response;
      if response.Some? {
        ledPositionRef := response;
      }
    }

    /**
     * `handleWsResponse`, run to completion. For an LED frame the refresh callback is
     * `getLedPositionData`, so a refresh also replaces the cache.
     */
    method HandleWsResponse(msg: WsResponse, refresh: Option<seq<LedPosition>>)
      modifies this`currentInput, this`ledPositionRef
      ensures State() == Dispatch(old(State()), msg, refresh)
    {
      match msg {
        case PrioritiesUpdate(_, _, priorities, _) =>
          var activePriority := FindActivePriority(priorities);
          if activePriority.Some? {
            currentInput := activePriority;
          } else {
            currentInput := None;
          }
        case LedStreamUpdate(_, _, flatColors) =>
          if ledPositionRef.Some? {
            var table := ledPositionRef.value;
            var isFallback, refreshCalls := CheckHdmiFallBack(table, flatColors, refresh);
            if refreshCalls == 1 {
              var _ := GetLedPositionData(refresh);
            }
            match isFallback {
              case None =>
              case Some(fallback) =>
                if !fallback {
                  currentInput := Some(VideoGrabberInput);
                } else {
                  currentInput := None;
                }
            }
          }
        case Unhandled(_) =>
      }
    }

    /**
     * `connectWS`: creates a socket (`None` when construction throws) without storing
     * it; the reference is set only when the socket opens. No earlier socket is closed.
     */
    method ConnectWS(constructs: bool) returns (ws: Socket?)
      ensures constructs ==> ws != null && fresh(ws) && ws.readyState == Connecting && ws.sent == []
      ensures !constructs ==> ws == null
    {
      if constructs {
        ws := new Socket();
      } else {
        ws := null;
      }
    }

    /** The `onopen` handler, run once the socket is open, stores it. */
    method OnOpen(ws: Socket)
      requires ws.readyState == Open
      modifies this`wsRef
      ensures wsRef == ws && wsRef.readyState == Open
    {
      wsRef := ws;
    }

    /** The `onclose` handler, run once the socket is closed, clears the reference, whichever socket it holds. */
    method OnClose(ws: Socket)
      requires ws.readyState == Closed
      modifies this`wsRef
      ensures wsRef == null
    {
      wsRef := null;
    }

    /** `sendMessage`: sends only through a stored socket that is open; otherwise nothing changes. */
    method SendMessage(msg: OutMessage) returns (sent: bool)
      modifies wsRef
      ensures sent <==> old(wsRef) != null && old(wsRef.readyState) == Open
      ensures wsRef == old(wsRef)
      ensures sent ==> wsRef.sent == old(wsRef.sent) + [msg] && wsRef.readyState == Open
      ensures !sent && wsRef != null ==> unchanged(wsRef)
    {
      if wsRef != null && wsRef.readyState == Open {
        wsRef.Send(msg);
        sent := true;
      } else {
        sent := false;
      }
    }

    /** `disconnectWS`: closes and forgets the stored socket; without one it does nothing. */
    method DisconnectWS()
      modifies this`wsRef, wsRef
      ensures wsRef == null
      ensures old(wsRef) != null ==> old(wsRef).sent == old(wsRef.sent)
      ensures old(wsRef) != null ==>
                old(wsRef).readyState == if old(wsRef.readyState) in {Connecting, Open} then Closing else old(wsRef.readyState)
    {
      if wsRef != null {
        wsRef.Close();
        wsRef := null;
      }
    }

    /**
     * The socket's life cycle as the dashboard drives it: a socket that constructs and
     * then opens is stored by `onopen`, and the next message goes out on it.
     */
    method ConnectOpenSend(msg: OutMessage) returns (sent: bool)
      modifies this`wsRef
      ensures sent && wsRef != null && fresh(wsRef) && wsRef.sent == [msg]
    {
      var ws := ConnectWS(true);
      ws.Opened();
      OnOpen(ws);
      sent := SendMessage(msg);
    }
  }
}
