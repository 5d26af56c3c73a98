# DirectX2DLibraryCpp engine core, modelled in Dafny

DirectX2DLibraryCpp is a small 2D game-engine façade over Direct3D 9,
DirectInput 8 and DirectSound 8. Beneath the device calls sit a few pieces
of pure, sequential logic, and this project models them and proves their
properties:

- **Input.** The per-frame button edge state machine `Input::UpdateButtonState`
  (states None, Pushed, Held, Released) drives the keyboard's 256 keys and
  the gamepad's 12 logical buttons. The gamepad first turns stick axes, the
  POV hat and button bytes into pressed flags, with a ±200 dead zone and the
  0x80 "down" bit. The mouse does not use the state machine; it compares its
  previous and current samples, and its `IsButtonHeld` means "pressed in
  this frame" while `IsButtonPushed` means "still pressed". `Input` itself
  has an initialisation failure policy (keyboard and mouse must succeed; the
  gamepad may be absent) and updates keyboard, mouse and gamepad in turn.
- **Drawing arithmetic.** The 3×3 pivot-offset table, the four-vertex quad
  and its offset, scale/rotate/translate in `TransformRect`, texture
  coordinates, the text box and colour of `DrawFont`, and the 32-bit colour
  packing.
- **Registries.** `TextureManager` maps keyword pointers to texture
  records. `Sound` maps keyword pointers to sound buffers and keeps a list of
  duplicated one-shot buffers, which `EraseDuplicateSound` filters.
  `std::map::operator[]` inserts a default entry for a missing key, and the
  model makes that explicit.

Modules, one per source class: `Buttons` (state machine, the 0x80 bit, the
per-frame loop over all buttons), `KeyboardInput`, `GamePadInput`,
`MouseInput`, `InputSystem`, `Colours` (the D3DCOLOR packing macros of
d3d9types.h), `Drawing` (Graphics.cpp), `Textures` (TextureManager),
`Audio` (Sound). `Common` holds the nullable keyword pointer `CStr`, `Option`
and `Outcome`. `Outcome` is either a new state or `NullDereference`, for
calls that, as written, go through a null pointer.

How the model treats the source:

- Device objects are abstract records. A texture is a handle that may be
  null, plus a width and a height. A sound buffer has an id, `playing`,
  `looping` and `position`. Device pointers held by the input classes become
  an `attached` flag.
- Keywords are `const char*`, and the maps compare them by address. The model
  does the same with `CStr = NullPtr | Ptr(address)`.
- The results of foreign calls are inputs to the model: the device reads,
  `CreateTexture`, `CreateSoundBuffer`, `DuplicateSoundBuffer`, `LoadWavFile`,
  `StartControl` and the enumeration callbacks.
- Floats are exact reals. The sine and cosine of the draw angle are inputs
  (`Rotation`), and angle 0 is `NoRotation = (sin 0, cos 0) = (0, 1)`. The
  direction the POV hat angle decodes to is also an input (`HatDirections`).
  The model uses it only when the hat is not centred (0xFFFFFFFF).
- Colours are `bv32`, and `DrawRect`'s `color += alpha << 24` wraps modulo 2^32.
- The keyboard header declares `IsKeyHeld`, `IsKeyPushed`, `IsKeyReleased`
  and `IsKeyInputed`, but the `.cpp` file defines `IsHeld`, `IsPushed` and
  `IsReleased`. The model follows the `.cpp` bodies.

## Model

| member | source | states |
|---|---|---|
| Buttons.UpdateButtonState | DirectX2DLibraryCpp/Src/Engine/Input.cpp:61-87 | The result is Pushed or Held exactly when the button is down. It is Pushed exactly when the button is down and the previous state was None. It is Released exactly when the button is up and the previous state was Held. No fifth state exists. |
| Buttons.FixedPoints | DirectX2DLibraryCpp/Src/Engine/Input.cpp:68-83 | A down button stays Held, and an up button stays None. |
| Buttons.HoldingConverges | DirectX2DLibraryCpp/Src/Engine/Input.cpp:63-72 | From any state, two or more frames held down end in Held. |
| Buttons.ReleasingConverges | DirectX2DLibraryCpp/Src/Engine/Input.cpp:74-83 | From any state, two or more frames up end in None. |
| Buttons.DownIffLastPressed | DirectX2DLibraryCpp/Src/Engine/Input.cpp:61-87 | Whatever the history, the state is Pushed or Held exactly when the last frame was down. |
| Buttons.PushedIsFreshPress | DirectX2DLibraryCpp/Src/Engine/Input.cpp:65-67 | Pushed implies the button is down now and was up in the frame before. |
| Buttons.ReleasedFollowsPress | DirectX2DLibraryCpp/Src/Engine/Input.cpp:76-78 | Released implies the button is up now and was down in the frame before. |
| Buttons.RepressSkipsPushed | DirectX2DLibraryCpp/Src/Engine/Input.cpp:68-72 | Down, down, up, down ends in Held. A press right after Released skips Pushed. |
| Buttons.TapNeverReleased | DirectX2DLibraryCpp/Src/Engine/Input.cpp:79-83 | A one-frame tap (down, then up) ends in None, never Released. |
| Buttons.IsDown | DirectX2DLibraryCpp/Src/Engine/InputGamePad.cpp:298-302 | IsButtonInputed: the byte's 0x80 bit is set. It is a plain definition; IsDownIffHighHalf states its meaning. |
| Buttons.IsDownIffHighHalf | DirectX2DLibraryCpp/Src/Engine/InputMouse.cpp:123-127 | The 0x80 bit test holds exactly for bytes of 128 or more. |
| Buttons.StepAll | DirectX2DLibraryCpp/Src/Engine/InputGamePad.cpp:176-180 | The per-frame loop advances every button by the state machine, using that button's own pressed flag. |
| KeyboardInput.Update | DirectX2DLibraryCpp/Src/Engine/InputKeyboard.cpp:54-85 | No device leaves every key unchanged. A failed read also leaves every key unchanged, whether or not the failure is DIERR_INPUTLOST. After a good read, key i of 256 advances by the state machine with "byte i has bit 0x80". |
| KeyboardInput.IsHeld | DirectX2DLibraryCpp/Src/Engine/InputKeyboard.cpp:87-95 | The key's state is Held. It is a plain definition; QueriesExclusive and QueriesAfterUpdate state its properties. |
| KeyboardInput.IsPushed | DirectX2DLibraryCpp/Src/Engine/InputKeyboard.cpp:97-105 | The key's state is Pushed. It is a plain definition. |
| KeyboardInput.IsReleased | DirectX2DLibraryCpp/Src/Engine/InputKeyboard.cpp:107-115 | The key's state is Released. It is a plain definition. |
| KeyboardInput.QueriesExclusive | DirectX2DLibraryCpp/Src/Engine/InputKeyboard.cpp:87-115 | IsHeld, IsPushed and IsReleased are equality tests on the key's state, so at most one holds. The key code must be below 256. |
| KeyboardInput.QueriesAfterUpdate | DirectX2DLibraryCpp/Src/Engine/InputKeyboard.cpp:70-115 | After a frame, IsPushed holds exactly when the key is down and was None. IsHeld holds exactly when it is down and was not None. IsReleased holds exactly when it is up and was Held. |
| GamePadInput.HatPresses | DirectX2DLibraryCpp/Src/Engine/InputGamePad.cpp:138-139 | A centred hat (0xFFFFFFFF) presses no direction. Otherwise the decoded directions apply. |
| GamePadInput.PressedFlags | DirectX2DLibraryCpp/Src/Engine/InputGamePad.cpp:115-174 | Left is pressed when lX < -200 or the hat points left. Right, Up and Down follow the same rule with lX > 200, lY < -200 and lY > 200. Button01+i is pressed when rgbButtons[i] has bit 0x80, for i < 8. |
| GamePadInput.DeadZoneIsQuiet | DirectX2DLibraryCpp/Src/Engine/InputGamePad.cpp:119-136 | With the hat centred, an axis within ±200 presses neither of its directions, and the stick never presses two opposite directions. |
| GamePadInput.Update | DirectX2DLibraryCpp/Src/Engine/InputGamePad.cpp:89-181 | No device leaves all 12 states unchanged. A failed read resets every state to None when re-acquiring also fails, and changes nothing when re-acquiring succeeds. After a good read, each state advances by the state machine with its pressed flag. |
| GamePadInput.IsButtonHeld | DirectX2DLibraryCpp/Src/Engine/InputGamePad.cpp:74-77 | The button's state is Held. It is a plain definition; ButtonQueriesExclusive states its property. |
| GamePadInput.IsButtonPushed | DirectX2DLibraryCpp/Src/Engine/InputGamePad.cpp:79-82 | The button's state is Pushed. It is a plain definition. |
| GamePadInput.IsButtonReleased | DirectX2DLibraryCpp/Src/Engine/InputGamePad.cpp:84-87 | The button's state is Released. It is a plain definition. |
| GamePadInput.ButtonQueriesExclusive | DirectX2DLibraryCpp/Src/Engine/InputGamePad.cpp:74-87 | The three button queries are equality tests on the stored state, so at most one holds. |
| GamePadInput.Enumerate | DirectX2DLibraryCpp/Src/Engine/InputGamePad.cpp:218-296 | The callback stops once a device is counted, so FindCount either stays the same or goes from 0 to 1. A counted device has been created. |
| GamePadInput.AtMostOneDevice | DirectX2DLibraryCpp/Src/Engine/InputGamePad.cpp:19-33 | Across the gamepad pass and the joystick pass, at most one device is set up. |
| GamePadInput.Initialize | DirectX2DLibraryCpp/Src/Engine/InputGamePad.cpp:11-60 | Initialize fails, with states untouched, exactly when no device was found. Otherwise it calls StartControl until the first success, and at most 5 times. It then resets all 12 states to None and returns true. |
| MouseInput.IsButtonHeld | DirectX2DLibraryCpp/Src/Engine/InputMouse.cpp:90-99 | Up in the previous sample and down in the current one, under the source's name. It is a plain definition; EdgesPartition and EdgesAfterUpdate state its properties. |
| MouseInput.IsButtonPushed | DirectX2DLibraryCpp/Src/Engine/InputMouse.cpp:101-110 | Down in both samples. It is a plain definition. |
| MouseInput.IsButtonReleased | DirectX2DLibraryCpp/Src/Engine/InputMouse.cpp:112-121 | Down in the previous sample and up in the current one. It is a plain definition. |
| MouseInput.EdgesPartition | DirectX2DLibraryCpp/Src/Engine/InputMouse.cpp:90-121 | At most one of IsButtonHeld, IsButtonPushed and IsButtonReleased holds. Some edge holds exactly when the button is down in either sample, so all are false when it is up in both. |
| MouseInput.Update | DirectX2DLibraryCpp/Src/Engine/InputMouse.cpp:59-75 | No device changes nothing. Otherwise the old current sample becomes the previous one. The new current sample is the first read, or the read after re-acquiring, or the old sample when both reads fail. |
| MouseInput.EdgesAfterUpdate | DirectX2DLibraryCpp/Src/Engine/InputMouse.cpp:66-121 | After a frame, IsButtonHeld means up before and down now. IsButtonPushed means down in both frames. IsButtonReleased means down before and up now. |
| MouseInput.StateMachinePushedIsMouseHeld | DirectX2DLibraryCpp/Src/Engine/InputMouse.cpp:90-99 | Where the keyboard's state machine reports Pushed, the mouse's comparison of the same two frames reports IsButtonHeld. |
| MouseInput.StateMachineReleasedIsMouseReleased | DirectX2DLibraryCpp/Src/Engine/InputMouse.cpp:112-121 | Where the state machine reports Released, the mouse reports IsButtonReleased. |
| InputSystem.Release | DirectX2DLibraryCpp/Src/Engine/Input.cpp:40-52 | Every device and the interface are detached, and no button state is touched. |
| InputSystem.Initialize | DirectX2DLibraryCpp/Src/Engine/Input.cpp:11-38 | Initialize succeeds exactly when the interface, the keyboard and the mouse all initialise. A failed interface changes nothing. A failed keyboard or mouse releases everything. The gamepad's result is never checked. Keyboard states and both mouse samples are always kept. The pad's states are reset to None when a device is found, and kept otherwise. |
| InputSystem.GamePadNeverFailsInitialize | DirectX2DLibraryCpp/Src/Engine/Input.cpp:33-35 | Two initialisations that differ only in the gamepads and joysticks present agree on success, and both succeed exactly when the interface, keyboard and mouse do. |
| InputSystem.Update | DirectX2DLibraryCpp/Src/Engine/Input.cpp:54-59 | Keyboard, mouse and gamepad each advance from their own read only, and no device's attachment changes. A gamepad whose read fails keeps its states when it is re-acquired, and otherwise has every button reset to None. |
| InputSystem.UpdateAfterFailedInitialize | DirectX2DLibraryCpp/Src/Engine/Input.cpp:11-59 | When Initialize fails after the interface was created, every device is released, so the next Update changes no state. When it succeeds, keyboard and mouse are still attached after the Update. |
| Colours.Argb | DirectX2DLibraryCpp/Src/Engine/Graphics.cpp:158 | Packing puts each channel, masked to a byte, back into its own byte. |
| Colours.ArgbOfChannels | DirectX2DLibraryCpp/Src/Engine/Graphics.cpp:256 | Every 32-bit colour is the packing of its own four channels. |
| Colours.Xrgb | DirectX2DLibraryCpp/Src/Engine/Graphics.cpp:256 | D3DCOLOR_XRGB is opaque (alpha 0xFF) and carries the three channels, each masked to a byte. |
| Colours.Rgba | DirectX2DLibraryCpp/Src/Engine/Graphics.cpp:158 | D3DCOLOR_RGBA takes its alpha last, but the alpha lands in the top byte and each channel lands in its own byte. |
| Drawing.TintWith | DirectX2DLibraryCpp/Src/Engine/Graphics.cpp:158 | Textured quads are white (RGB 0xFFFFFF), and their alpha is the given alpha. |
| Colours.PackAlpha | DirectX2DLibraryCpp/Src/Engine/Graphics.cpp:106 | Adding alpha << 24 keeps the low 24 bits. The top byte becomes the old top byte plus alpha, modulo 256. |
| Colours.PackAlphaOfRgb | DirectX2DLibraryCpp/Src/Engine/Graphics.cpp:106 | For a colour below 2^24, the packed colour is alpha·2^24 + colour in 32-bit arithmetic. |
| Colours.PackAlphaIsArgb | DirectX2DLibraryCpp/Src/Engine/Graphics.cpp:106 | For a colour below 2^24, the packed colour is the D3DCOLOR_ARGB of the alpha and the colour's channels. |
| Colours.PackAlphaWraps | DirectX2DLibraryCpp/Src/Engine/Graphics.cpp:106 | A colour that already has alpha 0xFF, given alpha 1, wraps to alpha 0. |
| Drawing.CalculatePivotOffset | DirectX2DLibraryCpp/Src/Engine/Graphics.cpp:436-454 | Each of the nine table entries moves the rectangle back by the pivot's fraction of its extent: −w·fx in X and −h·fy in Y, with fx and fy each 0, ½ or 1. LeftTop gives (0,0). |
| Drawing.PivotFractionIsGrid | DirectX2DLibraryCpp/Src/Engine/EngineConstant.h:16-28 | The pivot enumerators run row by row, so a pivot's column fraction is (value mod 3)/2 and its row fraction is (value div 3)/2. |
| Drawing.SetPivotType | DirectX2DLibraryCpp/Src/Engine/Graphics.cpp:260-263 | Only the current pivot changes. |
| Drawing.BaseQuad | DirectX2DLibraryCpp/Src/Engine/Graphics.cpp:108-114 | Four vertices at (0,0), (w,0), (w,h) and (0,h), in triangle-fan order. All share one colour, with the UV rectangle's left/right and top/bottom at the matching corners. |
| Drawing.ApplyOffset | DirectX2DLibraryCpp/Src/Engine/Graphics.cpp:116-122 | Every vertex moves by the offset, and nothing else about it changes. |
| Drawing.OffsetQuadSpan | DirectX2DLibraryCpp/Src/Engine/Graphics.cpp:108-122 | After the offset, the quad's corners are (offX, offY), (offX+w, offY), (offX+w, offY+h) and (offX, offY+h). |
| Drawing.CornerPivotsAtOrigin | DirectX2DLibraryCpp/Src/Engine/Graphics.cpp:440-450 | Under RightBottom vertex 2 lands on the origin, and under LeftTop vertex 0 does. |
| Drawing.TransformRect | DirectX2DLibraryCpp/Src/Engine/Graphics.cpp:413-434 | Every vertex of the quad goes through the same transform, in place. TransformVertex, UnrotatedTransform, TransformKeepsDistances and TransformKeepsQuadPoints state what that transform does. |
| Drawing.TransformVertex | DirectX2DLibraryCpp/Src/Engine/Graphics.cpp:413-434 | The transform moves only the position. Colour and texture coordinates are kept. |
| Drawing.UnrotatedTransform | DirectX2DLibraryCpp/Src/Engine/Graphics.cpp:415-432 | With angle 0, every vertex goes to (X·sx + pos_x, Y·sy + pos_y). |
| Drawing.TransformKeepsDistances | DirectX2DLibraryCpp/Src/Engine/Graphics.cpp:421-433 | With scale 1 and sin² + cos² = 1, the transform keeps the distance between any two vertices. |
| Drawing.TransformKeepsQuadPoints | DirectX2DLibraryCpp/Src/Engine/Graphics.cpp:413-434 | Transforming the quad and then taking a point on it gives the same point as transforming that point. |
| Drawing.PivotPointAtOrigin | DirectX2DLibraryCpp/Src/Engine/Graphics.cpp:116-122 | Before the transform, the offset quad has its pivot point at the origin, for every pivot. |
| Drawing.PivotLandsOnPosition | DirectX2DLibraryCpp/Src/Engine/Graphics.cpp:102-124 | For every pivot, angle and scale, the pivot point of the drawn rectangle lands on the position given to the draw call. |
| Drawing.DrawRect | DirectX2DLibraryCpp/Src/Engine/Graphics.cpp:102-124 | Every vertex keeps the caller's RGB. Its alpha is the caller's top byte plus alpha. The four corners get texture coordinates (0,0), (1,0), (1,1) and (0,1), in fan order. The point of the quad at the pivot's fraction lands on (x, y). |
| Drawing.DrawTexture | DirectX2DLibraryCpp/Src/Engine/Graphics.cpp:185-212 | A missing texture draws nothing. Otherwise the quad has the texture's own size, a white colour with the given alpha, and coordinates spanning the unit square. |
| Drawing.TexelsToUv | DirectX2DLibraryCpp/Src/Engine/Graphics.cpp:151-154 | Multiplying a texture coordinate back by the texture's size gives the texel position it came from. |
| Drawing.SpriteUv | DirectX2DLibraryCpp/Src/Engine/Graphics.cpp:151-154 | Each UV edge, multiplied back by the texture's width or height, gives the texel edge it came from: tex_x, tex_x + sprite_width, tex_y and tex_y + sprite_height. |
| Drawing.TexelsToUvOrdered | DirectX2DLibraryCpp/Src/Engine/Graphics.cpp:151-152 | For a positive texture width, a non-negative sprite width gives u_left ≤ u_right. tex_x = 0 with sprite width equal to the texture width gives [0, 1]. |
| Drawing.DrawTextureUV | DirectX2DLibraryCpp/Src/Engine/Graphics.cpp:134-175 | A missing texture draws nothing. A zero texture extent makes the coordinates non-finite. Otherwise vertex 0's coordinates come from the sprite's texel origin and vertex 2's from its far corner. |
| Drawing.TruncateToLong | DirectX2DLibraryCpp/Src/Engine/Graphics.cpp:229-235 | The (long) cast truncates toward zero. The result is within 1 of x and no farther from 0 than x. |
| Drawing.FontRgb | DirectX2DLibraryCpp/Src/Engine/Graphics.cpp:237-248 | Black gives (0,0,0), Red gives (255,0,0), and anything else gives (255,255,255). |
| Drawing.DrawFont | DirectX2DLibraryCpp/Src/Engine/Graphics.cpp:222-258 | A missing font draws nothing. Otherwise the text box is [x, x+800] × [y, y+300] from the truncated position, and the colour is opaque with the chosen RGB. |
| Textures.Initialize | DirectX2DLibraryCpp/Src/Engine/Texture.Manager.cpp:6-9 | The registry is left empty. |
| Textures.ReleaseTexture | DirectX2DLibraryCpp/Src/Engine/Texture.Manager.cpp:16-25 | A keyword is erased only when it is present with non-null data. Otherwise nothing changes, and other keys are never touched. |
| Textures.ReleaseAllTextures | DirectX2DLibraryCpp/Src/Engine/Texture.Manager.cpp:27-41 | Exactly the textures with non-null data are released, null entries are skipped, and the registry is left empty. |
| Textures.LoadTexture | DirectX2DLibraryCpp/Src/Engine/Texture.Manager.cpp:43-57 | A null keyword or file name returns false and changes nothing. A present keyword returns true without loading. Otherwise the keyword is inserted, the result is whether creation succeeded, and the keyword stays, with a default record, when creation fails. Existing keys are kept. |
| Textures.LoadTextureIdempotent | DirectX2DLibraryCpp/Src/Engine/Texture.Manager.cpp:51-54 | Loading a keyword a second time leaves the registry as the first load left it. |
| Textures.GetTexture | DirectX2DLibraryCpp/Src/Engine/Texture.Manager.cpp:59-67 | The result is null exactly when the keyword is absent. Otherwise it is the keyword's record. |
| Textures.LoadThenGetThenRelease | DirectX2DLibraryCpp/Src/Engine/Texture.Manager.cpp:16-67 | After a successful first load, GetTexture returns the texture. Releasing it makes it absent again and restores the registry. |
| Textures.RetryAfterFailedLoadReportsSuccess | DirectX2DLibraryCpp/Src/Engine/Texture.Manager.cpp:51-56 | After a failed load, retrying returns true, and GetTexture returns a record without texture data. |
| Textures.LoadTextureChecked | DirectX2DLibraryCpp/Src/Engine/Texture.Manager.cpp:43-57 | The corrected load keeps every keyword backed by texture data. When it returns true, GetTexture returns a texture with data. |
| Textures.RetryAfterFailedCheckedLoad | DirectX2DLibraryCpp/Src/Engine/Texture.Manager.cpp:51-56 | With the corrected load, a retry after a failure really loads. |
| Audio.PlayFlags | DirectX2DLibraryCpp/Src/Engine/Sound.cpp:154-160 | Looping is requested exactly when is_loop is set, and no other flag is set. |
| Audio.Play | DirectX2DLibraryCpp/Src/Engine/Sound.cpp:147-161 | A missing keyword changes nothing. A present keyword with a null slot is dereferenced. A live buffer starts playing, looping exactly when is_loop is set. |
| Audio.PlayDuplicate | DirectX2DLibraryCpp/Src/Engine/Sound.cpp:163-179 | A missing keyword changes nothing. A null original or a failed duplication is dereferenced. Otherwise the map is unchanged and the list grows by exactly one entry: the duplicated buffer, started without looping. |
| Audio.Stop | DirectX2DLibraryCpp/Src/Engine/Sound.cpp:181-192 | A missing keyword gains a null slot and nothing else changes. A null slot changes nothing. A live buffer becomes the same buffer stopped and rewound to position 0. Other keys are untouched. |
| Audio.ReleaseSoundFile | DirectX2DLibraryCpp/Src/Engine/Sound.cpp:120-129 | A present keyword is removed, which follows the pointer when the slot is null. A missing keyword changes nothing. Other keys are untouched. |
| Audio.ReleaseAllSoundFiles | DirectX2DLibraryCpp/Src/Engine/Sound.cpp:131-145 | The buffer map is left empty, and the duplicate list is kept. |
| Audio.Release | DirectX2DLibraryCpp/Src/Engine/Sound.cpp:34-58 | Both the buffer map and the duplicate list are left empty. |
| Audio.LoadSoundFile | DirectX2DLibraryCpp/Src/Engine/Sound.cpp:60-118 | A failed WAV load returns false and changes nothing. Otherwise the keyword holds the created slot, which is null when creation failed. The result is true exactly when creation and locking both succeeded. |
| Audio.LoadThenReleaseSound | DirectX2DLibraryCpp/Src/Engine/Sound.cpp:60-129 | Loading a fresh keyword successfully and then releasing it gives back the registry it started from. |
| Audio.FailedLoadThenReleaseDereferencesNull | DirectX2DLibraryCpp/Src/Engine/Sound.cpp:77-129 | A load whose buffer creation fails reports false, but the null slot it leaves is dereferenced by the next release of that keyword. |
| Audio.PlayDuplicateSurvivesErase | DirectX2DLibraryCpp/Src/Engine/Sound.cpp:163-229 | An erase pass run on the state a successful PlayDuplicate returns, before any playback ends, keeps what it kept before, followed by the new duplicate. |
| Audio.FinishPlayback | DirectX2DLibraryCpp/Src/Engine/Sound.cpp:207-213 | The mixer ending a non-looping duplicate clears its playing status, so it no longer survives. Nothing else changes. |
| Audio.FinishedDuplicateIsErased | DirectX2DLibraryCpp/Src/Engine/Sound.cpp:163-229 | Once a duplicate started by PlayDuplicate has finished playing, the next erase pass drops it and keeps exactly what it kept before. |
| Audio.StillPlayingCounts | DirectX2DLibraryCpp/Src/Engine/Sound.cpp:194-229 | The filter keeps only non-null, playing entries. Each such entry keeps its count, and everything else is dropped. |
| Audio.StillPlayingAppend | DirectX2DLibraryCpp/Src/Engine/Sound.cpp:196-228 | Filtering distributes over concatenation, so the kept entries keep their original order. |
| Audio.StillPlayingIdempotent | DirectX2DLibraryCpp/Src/Engine/Sound.cpp:194-229 | Filtering a second time changes nothing. |
| Audio.EraseDuplicateSound | DirectX2DLibraryCpp/Src/Engine/Sound.cpp:194-229 | One pass over the list leaves exactly the surviving entries, in order, and leaves the map untouched. |
| Audio.StopThenPlayDereferencesNull | DirectX2DLibraryCpp/Src/Engine/Sound.cpp:147-192 | Playing a keyword never loaded does nothing, but playing it after a Stop dereferences null. |
| Audio.PlayChecked | DirectX2DLibraryCpp/Src/Engine/Sound.cpp:147-161 | The corrected Play changes nothing for a keyword without a live buffer, and otherwise agrees with Play. |
| Audio.StopThenPlayCheckedIsHarmless | DirectX2DLibraryCpp/Src/Engine/Sound.cpp:147-192 | With the corrected Play, Stop followed by Play on an unknown keyword leaves only Stop's null slot. |

## Left out

- Device and interface creation and configuration are foreign COM calls. This covers `CreateInterface`, `CreateDevice`, `SetUpViewPort`, `CreateFontDevice`, `SetDataFormat`, `SetCooperativeLevel`, `SetProperty` and `Acquire`. The model reduces each to the success flag or outcome it returns.
- Inside `GamePad::StartControl`, the capability query and `Poll` are foreign calls. Only the sequence of StartControl results is an input. `Sleep(10)` between attempts is not modelled.
- `Sound::LoadWavFile` parses RIFF through the Windows mmio API, which is file I/O. The buffer Lock/memcpy/Unlock are device calls. Their results are inputs.
- `Graphics::CreateTexture` loads files through D3DX. Its result is an input: either a texture with a handle and size, or a failure that leaves the default record.
- In `Graphics::CreateTexture`, when `GetLevelDesc` fails, the texture is released but its pointer is not cleared. The model does not represent this dangling pointer, because CreateTexture is an abstract result here.
- The POV hat's angle-to-direction decoding depends on `sinf`/`cosf` and float thresholds, so its four directions are inputs. So are the sine and cosine of the draw angle in `TransformRect`.
- Floating point is modelled as exact real arithmetic, so rounding, infinities and NaN are not modelled. The one non-finite case, division by a zero texture extent in `DrawTextureUV`, is reported as `NonFiniteUv` instead of being computed.
- The mouse cursor position (`GetCursorPos`/`ScreenToClient`/`GetPos`) is OS I/O.
- The actual draw and present calls are device I/O: `StartDraw`, `FinishDraw`, `SetFVF`, `SetTexture`, `DrawPrimitiveUP` and `DrawText`. The model stops at the vertices and text box handed to them. The vertex fields Z = 0 and Rhw = 1 are constants and are left out.
- `Graphics::Initialize` sets the pivot to LeftTop through `SetPivotType`. The rest of it is device set-up, which is not modelled.
- Engine.cpp only forwards to the subsystems. Window.h is window creation and the message procedure. Main.cpp is a sample game loop. Threading is only a creation flag, with no concurrency logic.
- `TextureManager::Release` only calls `ReleaseAllTextures`, so `Textures.ReleaseAllTextures` stands for both.
- `IDirectSoundBuffer::GetStatus` failure in `EraseDuplicateSound` is not modelled. A buffer's `playing` field stands for the DSBSTATUS_PLAYING bit.
- MouseInput.Update: the model assumes a failed `GetDeviceState` leaves the sample buffer as it was. DirectInput does not document the buffer contents after a failure.
- Audio.LoadSoundFile: the model assumes a failed `CreateSoundBuffer` leaves a null pointer in the slot. DirectSound does not document what it writes on failure.
- Drawing.DrawFont: `(long)x` is a 32-bit truncating cast, undefined when x is out of range, and `(long)x + 800` can overflow. The model truncates toward zero over unbounded integers.
- Audio.PlayDuplicate: the model assumes `DuplicateSoundBuffer` leaves the new entry null when it fails, and that it fails for a null original. The entry starts null from `emplace_back`, but DirectSound does not document what it writes on failure.
- Audio.EraseDuplicateSound: the DirectSound mixer ends non-looping playback on its own, between frames. `playing` is the status at the moment of the call. The program's operations never clear it; the separate `Audio.FinishPlayback` transition stands for the mixer.
- GamePadInput.Enumerate: the model assumes a failed `CreateDevice` leaves the gamepad's device pointer as it was. DirectInput does not document what it writes on failure.

## Findings

| source | as written | input that shows it | evidently intended | confidence | as-written member | corrected member |
|---|---|---|---|---|---|---|
| DirectX2DLibraryCpp/Src/Engine/Texture.Manager.cpp:51-56 | `m_TextureList[keyword]` inserts the keyword before `CreateTexture` runs, and the entry stays when creation fails. The next `LoadTexture` of that keyword finds it and returns true without loading. | `LoadTexture(k, f)` with a failing creation, then `LoadTexture(k, f)` again. | A failed load leaves no entry, so true means the texture is loaded and a retry really reloads. | not executed; high | Textures.RetryAfterFailedLoadReportsSuccess | Textures.LoadTextureChecked |
| DirectX2DLibraryCpp/Src/Engine/Sound.cpp:147-161 | `Play` only checks that the keyword is in the map, then calls through the stored pointer. `Stop` (lines 181-186) inserts a null entry for an unknown keyword, so that pointer can be null. A `LoadSoundFile` whose `CreateSoundBuffer` fails (lines 77-85) leaves a null entry too, which `Play` and `ReleaseSoundFile` then dereference (Audio.FailedLoadThenReleaseDereferencesNull). | `Stop(k)` on a keyword never loaded, then `Play(k, false)`. | A keyword without a live buffer plays nothing, as `Stop` already does for a null entry. | not executed; high | Audio.StopThenPlayDereferencesNull | Audio.PlayChecked |
