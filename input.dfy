/**
 * The keyboard and mouse state of the input manager (pkg/platform/input/input.go): the
 * current and previous-frame key and button maps, from which "just pressed" and "just
 * released" are derived, plus mouse position, delta and scroll.
 */
module Input {

  /** The GLFW action codes the callbacks receive. */
  const Release: int := 0
  const Press: int := 1
  const Repeat: int := 2

  /** A GLFW key or mouse-button code (a Go `int`; unknown keys are -1). */
  datatype Code = Code(value: int)

  /** A Go `map[int]bool` read: false for a key that is absent. */
  predicate Held(m: map<Code, bool>, k: Code)
  {
    k in m && m[k]
  }

  /** The `for k, v := range src { dst[k] = v }` loop into a fresh map. */
  method CopyMap(src: map<Code, bool>) returns (dst: map<Code, bool>)
    ensures dst == src
  {
    dst := map[];
    var todo: set<Code> := src.Keys;
    while todo != {}
      invariant todo <= src.Keys
      invariant forall k :: k in dst <==> k in src && k !in todo
      invariant forall k :: k in dst ==> dst[k] == src[k]
      decreases todo
    {
      var x: Code :| x in todo;
      dst := dst[x := src[x]];
      todo := todo - {x};
    }
    assert dst.Keys == src.Keys;
  }

  /**
   * Go `InputManager`. Mouse coordinates are floats in Go; here they are reals, so the
   * delta is exact.
   */
  class InputManager {
    var keys: map<Code, bool>
    var prevKeys: map<Code, bool>
    var mouseButtons: map<Code, bool>
    var prevMouseButtons: map<Code, bool>
    var mouseX: real
    var mouseY: real
    var prevMouseX: real
    var prevMouseY: real
    var mouseDeltaX: real
    var mouseDeltaY: real
    var scrollX: real
    var scrollY: real

    /** `NewInputManager`: empty maps and every coordinate 0. */
    constructor ()
      ensures keys == map[] && prevKeys == map[] && mouseButtons == map[] && prevMouseButtons == map[]
      ensures mouseX == 0.0 && mouseY == 0.0 && prevMouseX == 0.0 && prevMouseY == 0.0
      ensures mouseDeltaX == 0.0 && mouseDeltaY == 0.0 && scrollX == 0.0 && scrollY == 0.0
    {
      keys, prevKeys, mouseButtons, prevMouseButtons := map[], map[], map[], map[];
      mouseX, mouseY, prevMouseX, prevMouseY := 0.0, 0.0, 0.0, 0.0;
      mouseDeltaX, mouseDeltaY, scrollX, scrollY := 0.0, 0.0, 0.0, 0.0;
    }

    /**
     * The frame step: the current key and button maps become the previous ones, the mouse
     * delta is taken since the last frame, and the scroll is reset. Right after it no key
     * and no button is "just" pressed or released.
     */
    method Update()
      modifies this
      ensures prevKeys == keys == old(keys) && prevMouseButtons == mouseButtons == old(mouseButtons)
      ensures mouseDeltaX == old(mouseX) - old(prevMouseX) && mouseDeltaY == old(mouseY) - old(prevMouseY)
      ensures prevMouseX == mouseX == old(mouseX) && prevMouseY == mouseY == old(mouseY)
      ensures scrollX == 0.0 && scrollY == 0.0
      ensures forall k :: !IsKeyJustPressed(k) && !IsKeyJustReleased(k)
      ensures forall b :: !IsMouseButtonJustPressed(b) && !IsMouseButtonJustReleased(b)
    {
      prevKeys := CopyMap(keys);
      prevMouseButtons := CopyMap(mouseButtons);
      mouseDeltaX := mouseX - prevMouseX;
      mouseDeltaY := mouseY - prevMouseY;
      prevMouseX := mouseX;
      prevMouseY := mouseY;
      scrollX := 0.0;
      scrollY := 0.0;
    }

    /** Press and Repeat hold the key, Release lets it go, any other action is ignored. */
    method OnKey(key: Code, scancode: int, action: int, mods: int)
      modifies this
      ensures keys == if action == Press || action == Repeat then old(keys)[key := true]
                      else if action == Release then old(keys)[key := false]
                      else old(keys)
      ensures action == Press || action == Repeat ==> IsKeyPressed(key)
      ensures action == Release ==> !IsKeyPressed(key)
      ensures forall k :: k != key ==> IsKeyPressed(k) == old(IsKeyPressed(k))
      ensures prevKeys == old(prevKeys) && mouseButtons == old(mouseButtons) && prevMouseButtons == old(prevMouseButtons)
      ensures scrollX == old(scrollX) && scrollY == old(scrollY)
      ensures mouseX == old(mouseX) && mouseY == old(mouseY) && prevMouseX == old(prevMouseX) && prevMouseY == old(prevMouseY)
      ensures mouseDeltaX == old(mouseDeltaX) && mouseDeltaY == old(mouseDeltaY)
    {
      if action == Press || action == Repeat {
        keys := keys[key := true];
      } else if action == Release {
        keys := keys[key := false];
      }
    }

    /** Press holds the button, Release lets it go; Repeat and anything else are ignored. */
    method OnMouseButton(button: Code, action: int, mods: int)
      modifies this
      ensures mouseButtons == if action == Press then old(mouseButtons)[button := true]
                              else if action == Release then old(mouseButtons)[button := false]
                              else old(mouseButtons)
      ensures action == Repeat ==> mouseButtons == old(mouseButtons)
      ensures forall b :: b != button ==> IsMouseButtonPressed(b) == old(IsMouseButtonPressed(b))
      ensures keys == old(keys) && prevKeys == old(prevKeys) && prevMouseButtons == old(prevMouseButtons)
      ensures scrollX == old(scrollX) && scrollY == old(scrollY)
      ensures mouseX == old(mouseX) && mouseY == old(mouseY) && prevMouseX == old(prevMouseX) && prevMouseY == old(prevMouseY)
      ensures mouseDeltaX == old(mouseDeltaX) && mouseDeltaY == old(mouseDeltaY)
    {
      if action == Press {
        mouseButtons := mouseButtons[button := true];
      } else if action == Release {
        mouseButtons := mouseButtons[button := false];
      }
    }

    method OnMouseMove(x: real, y: real)
      modifies this
      ensures mouseX == x && mouseY == y
      ensures keys == old(keys) && prevKeys == old(prevKeys) && mouseButtons == old(mouseButtons)
      ensures prevMouseButtons == old(prevMouseButtons)
      ensures prevMouseX == old(prevMouseX) && prevMouseY == old(prevMouseY)
      ensures mouseDeltaX == old(mouseDeltaX) && mouseDeltaY == old(mouseDeltaY)
      ensures scrollX == old(scrollX) && scrollY == old(scrollY)
    {
      mouseX := x;
      mouseY := y;
    }

    /** Scroll offsets overwrite, they do not accumulate within a frame. */
    method OnMouseScroll(xOffset: real, yOffset: real)
      modifies this
      ensures scrollX == xOffset && scrollY == yOffset
      ensures keys == old(keys) && prevKeys == old(prevKeys) && mouseButtons == old(mouseButtons)
      ensures prevMouseButtons == old(prevMouseButtons)
      ensures mouseX == old(mouseX) && mouseY == old(mouseY) && prevMouseX == old(prevMouseX) && prevMouseY == old(prevMouseY)
      ensures mouseDeltaX == old(mouseDeltaX) && mouseDeltaY == old(mouseDeltaY)
    {
      scrollX := xOffset;
      scrollY := yOffset;
    }

    function IsKeyPressed(key: Code): (b: bool)
      reads this
      ensures b <==> Held(keys, key)
      ensures key !in keys ==> !b
    {
      key in keys && keys[key]
    }

    /** Held now and not in the previous frame; so it is held, and not just released. */
    function IsKeyJustPressed(key: Code): (b: bool)
      reads this
      ensures b <==> Held(keys, key) && !Held(prevKeys, key)
      ensures b ==> IsKeyPressed(key) && !IsKeyJustReleased(key)
    {
      IsKeyPressed(key) && !Held(prevKeys, key)
    }

    /** Held in the previous frame and not now; so it is not held. */
    function IsKeyJustReleased(key: Code): (b: bool)
      reads this
      ensures b <==> !Held(keys, key) && Held(prevKeys, key)
      ensures b ==> !IsKeyPressed(key)
    {
      !IsKeyPressed(key) && Held(prevKeys, key)
    }

    function IsMouseButtonPressed(button: Code): (b: bool)
      reads this
      ensures b <==> Held(mouseButtons, button)
    {
      button in mouseButtons && mouseButtons[button]
    }

    function IsMouseButtonJustPressed(button: Code): (b: bool)
      reads this
      ensures b <==> Held(mouseButtons, button) && !Held(prevMouseButtons, button)
      ensures b ==> IsMouseButtonPressed(button) && !IsMouseButtonJustReleased(button)
    {
      IsMouseButtonPressed(button) && !Held(prevMouseButtons, button)
    }

    function IsMouseButtonJustReleased(button: Code): (b: bool)
      reads this
      ensures b <==> !Held(mouseButtons, button) && Held(prevMouseButtons, button)
      ensures b ==> !IsMouseButtonPressed(button)
    {
      !IsMouseButtonPressed(button) && Held(prevMouseButtons, button)
    }

    function GetMousePosition(): (r: (real, real))
      reads this
      ensures r == (mouseX, mouseY)
    {
      (mouseX, mouseY)
    }

    function GetMouseDelta(): (r: (real, real))
      reads this
      ensures r == (mouseDeltaX, mouseDeltaY)
    {
      (mouseDeltaX, mouseDeltaY)
    }

    function GetScroll(): (r: (real, real))
      reads this
      ensures r == (scrollX, scrollY)
    {
      (scrollX, scrollY)
    }

    /**
     * -1 when only the negative key is held, 1 when only the positive one is, 0 when both or
     * neither are (so 0 for one key held as both).
     */
    function GetAxis(negative: Code, positive: Code): (v: int)
      reads this
      ensures -1 <= v <= 1
      ensures v == -1 <==> IsKeyPressed(negative) && !IsKeyPressed(positive)
      ensures v == 1 <==> IsKeyPressed(positive) && !IsKeyPressed(negative)
      ensures v == 0 <==> IsKeyPressed(negative) == IsKeyPressed(positive)
    {
      (if IsKeyPressed(negative) then -1 else 0) + (if IsKeyPressed(positive) then 1 else 0)
    }

    /**
     * Forgets every key and button and zeroes the delta and the scroll; the position and the
     * previous position are kept.
     */
    method Clear()
      modifies this
      ensures keys == map[] && prevKeys == map[] && mouseButtons == map[] && prevMouseButtons == map[]
      ensures mouseDeltaX == 0.0 && mouseDeltaY == 0.0 && scrollX == 0.0 && scrollY == 0.0
      ensures mouseX == old(mouseX) && mouseY == old(mouseY)
      ensures prevMouseX == old(prevMouseX) && prevMouseY == old(prevMouseY)
      ensures forall k :: !IsKeyPressed(k) && !IsKeyJustReleased(k) && !IsMouseButtonPressed(k)
    {
      keys, prevKeys, mouseButtons, prevMouseButtons := map[], map[], map[], map[];
      mouseDeltaX, mouseDeltaY := 0.0, 0.0;
      scrollX, scrollY := 0.0, 0.0;
    }
  }
}
