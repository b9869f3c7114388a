/**
 * The entry dispatch of the sample watch-face editor activity: count the
 * top-level options an editor session offers, open exactly one of four
 * screens (or none), and finish when the back stack empties.
 */
module WatchFaceConfig {
  import opened Options

  /** A user style setting, known by its id. */
  datatype UserStyleSetting = UserStyleSetting(id: string)

  datatype UserStyleSchema = UserStyleSchema(userStyleSettings: seq<UserStyleSetting>)

  /** The current user style: the chosen option per setting id. */
  datatype UserStyle = UserStyle(selectedOptions: map<string, string>)

  /**
   * What `init` reads of an editor session; `complicationIds` are the keys of
   * its complication state in iteration order.
   */
  datatype EditorSession = EditorSession(
    userStyleSchema: UserStyleSchema,
    userStyle: UserStyle,
    backgroundComplicationId: Option<int>,
    complicationIds: seq<int>)

  /**
   * A session whose complication keys are distinct, as the keys of a map are,
   * and whose background complication is one of its complications.
   */
  predicate ConsistentSession(session: EditorSession) {
    && (forall i, j :: 0 <= i < j < |session.complicationIds| ==>
          session.complicationIds[i] != session.complicationIds[j])
    && (session.backgroundComplicationId.Some? ==>
          session.backgroundComplicationId.value in session.complicationIds)
  }

  /** The calls `init` can make on the fragment controller. */
  datatype ControllerCall =
    | ShowConfigFragment
    | ShowComplicationConfig(complicationId: int)
    | ShowComplicationConfigSelectionFragment
    | ShowStyleConfigFragment(settingId: string, styleSchema: UserStyleSchema, userStyle: UserStyle)

  function NumSettings(session: EditorSession): nat {
    |session.userStyleSchema.userStyleSettings|
  }

  function NumComplications(session: EditorSession): nat {
    |session.complicationIds|
  }

  /** More complications than the background one alone accounts for. */
  predicate HasNonBackgroundComplication(session: EditorSession)
    ensures HasNonBackgroundComplication(session) ==> NumComplications(session) > 0
    ensures NumComplications(session) >= 2 ==> HasNonBackgroundComplication(session)
    ensures session.backgroundComplicationId.None? ==>
              (HasNonBackgroundComplication(session) <==> NumComplications(session) > 0)
  {
    NumComplications(session) > (if session.backgroundComplicationId.Some? then 1 else 0)
  }

  /**
   * In a consistent session, counting complications beyond the background one
   * finds exactly whether some complication other than the background exists.
   */
  lemma NonBackgroundComplicationIff(session: EditorSession)
    requires ConsistentSession(session)
    ensures HasNonBackgroundComplication(session) <==>
              exists c :: c in session.complicationIds && Some(c) != session.backgroundComplicationId
  {
    var ids := session.complicationIds;
    var bg := session.backgroundComplicationId;
    if HasNonBackgroundComplication(session) {
      if bg.None? {
        assert ids[0] in ids && Some(ids[0]) != bg;
      } else {
        assert ids[0] != ids[1];
        if ids[0] == bg.value {
          assert ids[1] in ids && Some(ids[1]) != bg;
        } else {
          assert ids[0] in ids && Some(ids[0]) != bg;
        }
      }
    } else if bg.Some? {
      forall c | c in ids
        ensures Some(c) == bg
      {
        assert |ids| <= 1;
        assert bg.value in ids;
      }
    }
  }

  /** One option per style setting, plus the background and the other complications if present. */
  function TopLevelOptionCount(session: EditorSession): (r: nat)
    ensures NumSettings(session) <= r <= NumSettings(session) + 2
    ensures r == NumSettings(session) <==>
              NumComplications(session) == 0 && session.backgroundComplicationId.None?
    ensures r == NumSettings(session) + 2 <==>
              session.backgroundComplicationId.Some? && NumComplications(session) >= 2
  {
    NumSettings(session)
    + (if session.backgroundComplicationId.Some? then 1 else 0)
    + (if HasNonBackgroundComplication(session) then 1 else 0)
  }

  /** The controller call `init` makes for a session, if any. */
  function InitAction(session: EditorSession): (r: Option<ControllerCall>)
    ensures r.None? <==> NumSettings(session) == 0 && NumComplications(session) == 0
    ensures r == Some(ShowConfigFragment) <==> TopLevelOptionCount(session) > 1
    ensures r.Some? && r.value.ShowComplicationConfig? ==>
              NumComplications(session) == 1 && NumSettings(session) == 0
              && r.value.complicationId == session.complicationIds[0]
    ensures r.Some? && r.value.ShowComplicationConfigSelectionFragment? ==>
              NumComplications(session) > 1 && NumSettings(session) == 0
              && session.backgroundComplicationId.None?
    ensures r.Some? && r.value.ShowStyleConfigFragment? ==>
              NumComplications(session) == 0 && NumSettings(session) == 1
              && session.backgroundComplicationId.None?
              && r.value == ShowStyleConfigFragment(
                   session.userStyleSchema.userStyleSettings[0].id,
                   session.userStyleSchema, session.userStyle)
  {
    if TopLevelOptionCount(session) > 1 then
      Some(ShowConfigFragment)
    else if NumComplications(session) == 1 then
      Some(ShowComplicationConfig(session.complicationIds[0]))
    else if NumComplications(session) > 1 then
      Some(ShowComplicationConfigSelectionFragment)
    else if NumSettings(session) == 1 then
      Some(ShowStyleConfigFragment(
        session.userStyleSchema.userStyleSettings[0].id,
        session.userStyleSchema, session.userStyle))
    else
      None
  }

  /** The calls made, as a list of zero or one. */
  function AsCalls(action: Option<ControllerCall>): (r: seq<ControllerCall>)
    ensures action.None? ==> r == []
    ensures action.Some? ==> r == [action.value]
  {
    match action
    case None => []
    case Some(c) => [c]
  }

  /**
   * With a single top-level option the activity goes straight to it; with
   * none it does nothing.
   */
  lemma SingleOptionOpensDirectly(session: EditorSession)
    requires ConsistentSession(session)
    ensures TopLevelOptionCount(session) == 0 ==> InitAction(session).None?
    ensures TopLevelOptionCount(session) == 1 ==>
              InitAction(session).Some? && InitAction(session) != Some(ShowConfigFragment)
  {
    if session.backgroundComplicationId.Some? {
      assert NumComplications(session) > 0;
    }
  }

  /** The activity, reduced to what `init` and the back-stack listener touch. */
  class WatchFaceConfigActivity {
    var editorSession: Option<EditorSession>
    var backStackListenerRegistered: bool
    /** Every call made on the fragment controller, oldest first. */
    var controllerCalls: seq<ControllerCall>
    var finished: bool
    /** How many times the current fragment was given accessibility focus. */
    var focusRequests: nat

    constructor ()
      ensures editorSession.None? && !backStackListenerRegistered
      ensures controllerCalls == [] && !finished && focusRequests == 0
    {
      editorSession := None;
      backStackListenerRegistered := false;
      controllerCalls := [];
      finished := false;
      focusRequests := 0;
    }

    /**
     * `init`: keep the session, register the back-stack listener, count the
     * top-level options and make at most one controller call.
     */
    method Init(session: EditorSession)
      modifies this
      ensures editorSession == Some(session) && backStackListenerRegistered
      ensures controllerCalls == old(controllerCalls) + AsCalls(InitAction(session))
      ensures finished == old(finished) && focusRequests == old(focusRequests)
    {
      editorSession := Some(session);
      backStackListenerRegistered := true;

      var topLevelOptionCount := |session.userStyleSchema.userStyleSettings|;
      var hasBackgroundComplication := session.backgroundComplicationId.Some?;
      if hasBackgroundComplication {
        topLevelOptionCount := topLevelOptionCount + 1;
      }
      var numComplications := |session.complicationIds|;
      var hasNonBackgroundComplication :=
        numComplications > (if hasBackgroundComplication then 1 else 0);
      if hasNonBackgroundComplication {
        topLevelOptionCount := topLevelOptionCount + 1;
      }

      if topLevelOptionCount > 1 {
        controllerCalls := controllerCalls + [ShowConfigFragment];
      } else if numComplications == 1 {
        var onlyComplication := session.complicationIds[0];
        controllerCalls := controllerCalls + [ShowComplicationConfig(onlyComplication)];
      } else if numComplications > 1 {
        controllerCalls := controllerCalls + [ShowComplicationConfigSelectionFragment];
      } else if |session.userStyleSchema.userStyleSettings| == 1 {
        var onlyStyleSetting := session.userStyleSchema.userStyleSettings[0];
        controllerCalls := controllerCalls + [ShowStyleConfigFragment(
          onlyStyleSetting.id, session.userStyleSchema, session.userStyle)];
      }
    }

    /**
     * The back-stack listener: finish the activity when the stack is empty,
     * otherwise focus the current fragment.
     */
    method OnBackStackChanged(backStackEntryCount: nat)
      requires backStackListenerRegistered
      modifies this
      ensures backStackEntryCount == 0 ==> finished && focusRequests == old(focusRequests)
      ensures backStackEntryCount != 0 ==> finished == old(finished) && focusRequests == old(focusRequests) + 1
      ensures editorSession == old(editorSession) && controllerCalls == old(controllerCalls)
      ensures backStackListenerRegistered
    {
      if backStackEntryCount == 0 {
        finished := true;
      } else {
        focusRequests := focusRequests + 1;
      }
    }
  }
}
