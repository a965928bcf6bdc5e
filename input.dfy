/** The Input singleton: key and mouse state written by the window and read
    by scripts and the scene camera. Most of it only takes effect while the
    play window is active. */
module Input {
  import opened Glm

  class InputState {
    var keyDownMap: map<int, bool>
    var mousePosition: Vec2
    var mouseMovement: Vec2
    var mouseScroll: Vec2
    var editorMousePositionOffset: Vec2
    var rendererWidth: int
    var rendererHeight: int
    var enablePointerLock: bool
    var editorRendererActive: bool
    var playWindowActive: bool

    /** The header's initialisers; glm leaves the three mouse vectors
        uninitialised, so they are taken as given. */
    constructor (position: Vec2, movement: Vec2, scroll: Vec2)
      ensures keyDownMap == map[] && editorMousePositionOffset == Vec2(0.0, 0.0)
      ensures mousePosition == position && mouseMovement == movement && mouseScroll == scroll
      ensures rendererWidth == 1 && rendererHeight == 1
      ensures !enablePointerLock && !editorRendererActive && !playWindowActive
    {
      keyDownMap := map[];
      mousePosition := position;
      mouseMovement := movement;
      mouseScroll := scroll;
      editorMousePositionOffset := Vec2(0.0, 0.0);
      rendererWidth := 1;
      rendererHeight := 1;
      enablePointerLock := false;
      editorRendererActive := false;
      playWindowActive := false;
    }

    /** Input::getButtonDown: the stored state of a known key, and only while
        the play window is active. */
    function GetButtonDown(keyCode: int): (r: bool)
      reads this
      ensures keyCode !in keyDownMap ==> !r
      ensures !playWindowActive ==> !r
      ensures r <==> playWindowActive && keyCode in keyDownMap && keyDownMap[keyCode]
    {
      if keyCode !in keyDownMap then false
      else if playWindowActive then keyDownMap[keyCode]
      else false
    }

    /** Input::setButtonDown is ignored while the play window is inactive. */
    method SetButtonDown(keyCode: int, state: bool)
      modifies this
      ensures playWindowActive == old(playWindowActive)
      ensures old(playWindowActive) ==> keyDownMap == old(keyDownMap)[keyCode := state]
      ensures !old(playWindowActive) ==> keyDownMap == old(keyDownMap)
      ensures playWindowActive ==> GetButtonDown(keyCode) == state
      ensures forall k :: k != keyCode ==> GetButtonDown(k) == old(GetButtonDown(k))
      ensures unchanged(this`mousePosition, this`mouseMovement, this`mouseScroll, this`editorMousePositionOffset)
      ensures unchanged(this`rendererWidth, this`rendererHeight, this`enablePointerLock, this`editorRendererActive)
    {
      if playWindowActive {
        keyDownMap := keyDownMap[keyCode := state];
      }
    }

    /** Input::getMousePosition: the stored position less the editor offset. */
    function GetMousePosition(): (r: Vec2)
      reads this
      ensures r.x + editorMousePositionOffset.x == mousePosition.x
      ensures r.y + editorMousePositionOffset.y == mousePosition.y
    {
      Vec2(mousePosition.x - editorMousePositionOffset.x, mousePosition.y - editorMousePositionOffset.y)
    }

    /** Input::setMousePosition is ignored while the play window is inactive. */
    method SetMousePosition(x: real, y: real)
      modifies this`mousePosition
      ensures playWindowActive ==> mousePosition == Vec2(x, y)
      ensures !playWindowActive ==> mousePosition == old(mousePosition)
    {
      if playWindowActive {
        mousePosition := Vec2(x, y);
      }
    }

    /** Input::getMouseMovement: (0,0) while the play window is inactive. */
    function GetMouseMovement(): (r: Vec2)
      reads this
      ensures !playWindowActive ==> r == Vec2(0.0, 0.0)
      ensures playWindowActive ==> r == mouseMovement
    {
      if playWindowActive then mouseMovement else Vec2(0.0, 0.0)
    }

    /** The movement setter is not gated by the play window. */
    method SetMouseMovement(x: real, y: real)
      modifies this`mouseMovement
      ensures mouseMovement == Vec2(x, y)
    {
      mouseMovement := Vec2(x, y);
    }

    /** Input::getMouseScroll: (0,0) while the play window is inactive. */
    function GetMouseScroll(): (r: Vec2)
      reads this
      ensures !playWindowActive ==> r == Vec2(0.0, 0.0)
      ensures playWindowActive ==> r == mouseScroll
    {
      if playWindowActive then mouseScroll else Vec2(0.0, 0.0)
    }

    /** The scroll setter is not gated by the play window. */
    method SetMouseScroll(x: real, y: real)
      modifies this`mouseScroll
      ensures mouseScroll == Vec2(x, y)
    {
      mouseScroll := Vec2(x, y);
    }

    /** Input::resetMouseDynamicState zeroes movement and scroll, so both read
        (0,0) afterwards whether or not the play window is active. */
    method ResetMouseDynamicState()
      modifies this`mouseMovement, this`mouseScroll
      ensures mouseMovement == Vec2(0.0, 0.0) && mouseScroll == Vec2(0.0, 0.0)
      ensures GetMouseMovement() == Vec2(0.0, 0.0) && GetMouseScroll() == Vec2(0.0, 0.0)
    {
      SetMouseMovement(0.0, 0.0);
      SetMouseScroll(0.0, 0.0);
    }

    method ActivatePointerLock(enable: bool)
      modifies this`enablePointerLock
      ensures PointerLockActivated() == enable
    {
      enablePointerLock := enable;
    }

    function PointerLockActivated(): bool
      reads this
    {
      enablePointerLock
    }

    method SetEditorRendererActive(active: bool)
      modifies this`editorRendererActive
      ensures IsEditorRendererActive() == active
    {
      editorRendererActive := active;
    }

    function IsEditorRendererActive(): bool
      reads this
    {
      editorRendererActive
    }

    method SetPlayWindowActive(active: bool)
      modifies this`playWindowActive
      ensures IsPlayWindowActive() == active
    {
      playWindowActive := active;
    }

    function IsPlayWindowActive(): bool
      reads this
    {
      playWindowActive
    }

    method SetEditorMousePositionOffset(x: real, y: real)
      modifies this`editorMousePositionOffset
      ensures editorMousePositionOffset == Vec2(x, y)
    {
      editorMousePositionOffset := Vec2(x, y);
    }

    method SetRendererDimensions(width: int, height: int)
      modifies this`rendererWidth, this`rendererHeight
      ensures rendererWidth == width && rendererHeight == height
    {
      rendererWidth := width;
      rendererHeight := height;
    }

    /** Input::getRelativeMousePosition: the mouse position scaled to the
        renderer, mapping the renderer's extent onto [-1, 1] on each axis, or
        (0,0) when a dimension is zero. */
    function GetRelativeMousePosition(): (r: Vec2)
      reads this
      ensures rendererWidth == 0 || rendererHeight == 0 ==> r == Vec2(0.0, 0.0)
      ensures rendererWidth != 0 && rendererHeight != 0 ==>
        (r.x / 2.0 + 0.5) * rendererWidth as real == GetMousePosition().x &&
        (r.y / 2.0 + 0.5) * rendererHeight as real == GetMousePosition().y
    {
      if rendererWidth == 0 || rendererHeight == 0 then Vec2(0.0, 0.0)
      else
        var p := GetMousePosition();
        Vec2(2.0 * (p.x / rendererWidth as real - 0.5), 2.0 * (p.y / rendererHeight as real - 0.5))
    }
  }
}
