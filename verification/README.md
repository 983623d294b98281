# Hnoker: the protocol, the player and the GUI algorithms

Hnoker is a music-sharing system. A connector keeps a list of clients, drops those that fall silent
and broadcasts the list; every listener plays a queue of songs and obeys control messages; the
client with the largest id is the coordinator. Its window is drawn by raygui, a single header with
its own parsing, colour and layout arithmetic. This project models both and proves what they keep.

| file | models |
|---|---|
| `Messages.dfy`, `Codec.dfy` | the payload types, the archive, writing to and reading from a buffer |
| `Membership.dfy`, `Connector.dfy`, `ConnectorRuns.dfy` | the connector's client list, its two threads as a step relation with a clock, and its runs told from their steps |
| `Coordinator.dfy` | the two searches for the coordinator |
| `Playback.dfy`, `Listener.dfy`, `ListenerRuns.dfy` | the player and its frame, the message handlers, and runs of both told from their events |
| `Colour.dfy` | RGB to HSV and back |
| `Utf8.dfy`, `TextSplit.dfy` | the UTF-8 encoder, decoder and line scan; splitting text in a static buffer |
| `Decimal.dfy`, `ValueBox.dfy` | decimal text; the value box and its integer reader |
| `Style.dfy`, `DefaultStyle.dfy`, `StyleLoader.dfy` | the style table, what its defaults read as, and its binary loader |
| `ScrollGeometry.dfy`, `PanelGeometry.dfy`, `ListGeometry.dfy` | scroll bar, scroll panel and list view arithmetic |
| `ScrollLaws.dfy`, `PanelLaws.dfy`, `ListLaws.dfy` | what the three do, told from box, content and mouse alone |
| `Drawing.dfy`, `DrawingLaws.dfy`, `Controls.dfy` | what composite controls draw and what its parts read; the controls, which change the style table while they draw |
| `CTypes.dfy`, `RealArith.dfy` | C's types, strings, casts and divisions |

`float` is read as `real`, a cast to `int` drops the fraction, and C's division of `int` truncates
toward zero. Where the code changes things in place the model does too: the client vector, the
player, the text buffers, the style table and the archives are classes, and each method is proved to
compute a function on values about which the lemmas are stated.

Where a property one would expect fails, the model keeps the code, and the lemmas say when it holds or
show the run in which it does not:

- HSV to RGB and back is the identity at every hue, sector boundaries included, exactly when the
  chroma is at least 0.00001 or the colour is the canonical grey; a hue of 360 or more reads as 0.
- A list view wants its scroll bar exactly when some item is hidden, except for an empty list in a
  box of a negative height smaller than one item.
- A scroll bar's slider stays in its track exactly when its size is not negative and less than the
  track, or has to be cut for a track of at least two pixels; otherwise it has a negative length and
  can begin beyond the track.
- A scroll panel's vertical bar can have nothing to scroll: its range counts one border where the
  decision to show it counts two. With content within a pixel of the room less one border the source
  divides zero by zero; with a border of two pixels or more the range can even be negative.
- A text with more than 127 separators, or with 127 and text after the last, is not split in full; of
  a text of 1024 bytes or more the last piece loses its NUL, unless the slots run out before.
- The decoder takes overlong forms: C0 80 is read as code point 0.
- Every `int` but -2147483648 survives being printed and read.
- When no broadcast is pending, the list copied last is the membership, in every interleaving. The
  list sent last is so exactly when the thread that copied last also sent last, or the two threads'
  last copies agree; two broadcasts may overlap and the older list go out last.
- A spinner forces the border and alignment of its buttons only after drawing them, so neither shows.
- A client that sends CONNECT while listed is not refreshed by it.
- A listener whose id is zero takes itself for the coordinator of an empty list.
- The queue keeps its cap of 128 exactly in runs with at most 123 songs queued when the player's loop
  begins and adds its five; messages handled before can fill the queue, and then it holds 133.
- A listener that is not the coordinator answers SEND_STATUS by setting its own status, which drops
  the fraction of a second in its elapsed time. What is dropped comes on top of a song's playing time,
  and a follower that hears one status a frame never moves on.

## Model

The first 80 rows are the main results, by subject; the operations they are about, and the steps to them, follow
in the same order.

| member | source | states |
|---|---|---|
| Colour.HsvMatchesCone | ext/raygui.h:5088-5155 | the six-way switch equals the closed form of the HSV cone, one clamped line per channel, for every hue and saturation at or above zero; hues of 360 and more count as 0 |
| Colour.HsvRoundTrip | ext/raygui.h:5035-5155 | HSV to RGB and back is the identity if and only if the chroma reaches 0.00001 or the colour is a grey with hue 0; hue in [0,360), any saturation and value not below zero |
| Colour.RgbRoundTrip | ext/raygui.h:5035-5155 | RGB to HSV and back is the identity if and only if the colour is grey, or its spread reaches 0.00001 and a channel is positive; over all reals |
| Colour.RgbDrift | ext/raygui.h:5051-5056 | under the grey threshold no channel darkens and none brightens by 0.00001 |
| Colour.HsvRange | ext/raygui.h:5035-5084 | for channels in [0,1] the hue is in [0,360), saturation and value in [0,1] |
| Utf8.StepTakesTails | ext/raygui.h:5501-5538 | a step never jumps over a NUL or a newline: all it takes after its first byte are continuation bytes |
| Utf8.DecodeAllEncoded | ext/raygui.h:5459-5538 | stepping over the encodings of any code points gives exactly those code points and sizes, whatever comes before and after |
| Utf8.ReencodeConsumed | ext/raygui.h:5459-5538 | on arbitrary bytes a step re-encodes to what it consumed if and only if those bytes are in the grammar of section 4 of RFC 3629 with surrogates let in; `OverlongAccepted` is a step that does not |
| Utf8.EncoderMeetsGrammar | ext/raygui.h:5459-5494 | the encoder writes exactly the byte sequences of that grammar |
| Utf8.ScanReadsEncoded | ext/raygui.h:4580-4601 | a line of encoded characters within 256 bytes is scanned as exactly those characters |
| TextSplit.RejoinSplit | ext/raygui.h:5006-5026 | the pieces are free of separators and, rejoined with the separators in order, give the text |
| TextSplit.SplitUnique | ext/raygui.h:5006-5026 | no other cutting does: any separator-free pieces and separators are recovered from their text |
| TextSplit.SplitCommutesWithEncoding | ext/raygui.h:5006-5026 | splitting UTF-8 bytes at an ASCII delimiter gives the encodings of the split characters, so none is cut in two |
| TextSplit.KeptExactly | ext/raygui.h:5023-5024 | the 128 slots report every piece if and only if there are at most 126 separators, or 127 and the text ends with one; the first 127 pieces are always reported as they are |
| TextSplit.RowsFit | ext/raygui.h:5013-5024 | a row array of n entries, fewer than the slots, has room if and only if there are fewer than n separators |
| TextSplit.EndsWithRoom | ext/raygui.h:5007-5026 | the last piece has room for its NUL if and only if the text is under 1024 bytes, or 127 separators stand among its first 1023 |
| ValueBox.PrintThenParse | ext/raygui.h:2835-2887 | printing and reading an `int` is the identity if and only if it is not the smallest one |
| ValueBox.TypeAllValue | ext/raygui.h:2855-2887 | typing a run of digits gives v times the power of ten and their number, or overflows exactly when that does |
| ValueBox.TypeThenDelete | ext/raygui.h:2855-2887 | typing digits that do not overflow and deleting as many restores the value |
| Style.GetAfterAll | ext/raygui.h:1540-1557 | after any writes a property reads as the last value written to it by name or through DEFAULT, else as before |
| Style.OnlyLastWritesMatter | ext/raygui.h:1540-1557 | two histories of writes with the same last write to every property leave the same table |
| DefaultStyle.DefaultReads | ext/raygui.h:4078-4159 | the default style, property by property for every control, whatever the table held before: twelve colours shared by all, the borders, paddings and alignments of the controls named and DEFAULT's for the rest, the extended properties, and what stays as it was |
| DefaultStyle.DefaultLists | ext/raygui.h:4151-4152 | under it list items stand 30 pixels apart, so that a list view of any count is laid out in any box of a height of zero or more |
| StyleLoader.StyleFileLoads | ext/raygui.h:4331-4367 | so loading the file of any writes, of any values, does those writes |
| ScrollGeometry.SliderInTrack | ext/raygui.h:5198-5217 | the slider of every value begins and ends inside the track if and only if the size is not negative and less than the track, or must be cut to fit and the track is at least two pixels; `SliderOutside` is a slider that does not |
| ScrollGeometry.SliderDrawnInside | ext/raygui.h:5180-5218 | the same of the rectangles drawn, for both orientations and whatever arrows and borders leave of the bar |
| ScrollGeometry.DragFromCentre | ext/raygui.h:5199-5237 | dragging from the slider's centre gives the value back or less, by at most range over travel rounded up, and by at most one if the travel is at least the range; values of any sign |
| ScrollGeometry.DragMonotone | ext/raygui.h:5236-5237 | moving the mouse along the track never moves the value back |
| ScrollGeometry.ScrolledInRange | ext/raygui.h:5180-5291 | the value returned is in the range, whatever the mouse does |
| ScrollGeometry.ArrowMovesOne | ext/raygui.h:5261-5262 | with speed equal to range an arrow click moves by exactly one unless at the end |
| ScrollLaws.PlacedAtCentre | ext/raygui.h:5180-5268 | the whole bar, in both orientations: held, or pressed beside the slider, with the mouse where the middle of the slider of some value is drawn, it returns that value or less, within the bounds of `DragFromCentre` |
| ScrollLaws.PlacedAlong | ext/raygui.h:5222-5268 | so held or pressed, a mouse further along the bar never gives a smaller value, and moving it across the bar changes nothing |
| ScrollLaws.ArrowMoves | ext/raygui.h:5258-5262 | a click on an arrow moves the value by the whole part of range over speed, for any positive speed, up to the end it points to |
| ScrollLaws.DragLasts | ext/raygui.h:5226-5258 | over any frames, the slider is dragged if and only if a press on the bar started a drag since which every frame held the button off the arrows |
| PanelGeometry.BarsSettled | ext/raygui.h:1800-1805 | one recheck settles which bars a panel shows: each exactly when the content overflows what the other leaves, and none that could be spared |
| PanelGeometry.HorizontalRange | ext/raygui.h:1844-1845 | a shown horizontal bar has a range unless that starts at zero and the overflow is under a pixel; it is never negative |
| PanelGeometry.VerticalRange | ext/raygui.h:1801-1847 | a vertical bar is shown exactly for content over a border short of the room less one border; shown, it has no range exactly within a pixel of that room, a negative one exactly a pixel or more short of it, and never a negative one with a border of at most one; `NoRange` is a bar without range |
| PanelGeometry.BackwardsExactly | ext/raygui.h:1801-1847 | in a panel of any size there is content for which a vertical bar is shown with a negative range if and only if the border is two pixels or more |
| PanelGeometry.ViewClear | ext/raygui.h:1836-1842 | the view shows the content whole exactly in a direction without a bar, and lies clear of both bars |
| PanelLaws.SliderShare | ext/raygui.h:1902-1911 | in whole pixels the slider is to the room as the room is to the content, to the pixel, and shorter than the room |
| ListGeometry.ScrollBarNeeded | ext/raygui.h:3219-3233 | exactly when the scroll bar is used if and only if an item is hidden: with items of positive height always, but for an empty list and a height between minus one item and zero |
| ListGeometry.LayableExactly | ext/raygui.h:3219-3236 | exactly when the divisions by item height, by count and by the bar's range are defined |
| ListGeometry.FirstHitIsFirst | ext/raygui.h:3251-3266 | the item found is hit by the mouse and none above it is; none found means none is hit |
| ListGeometry.ListWellLaid | ext/raygui.h:3219-3278 | a bar only when items are hidden; the first item asked for and the first shown leave no gap; visible items and the item hit exist |
| ListLaws.SelectedByParity | ext/raygui.h:3253-3262 | over any clicks the item clicked last is selected exactly if it was clicked an odd number of times in a row, and else none is |
| ListLaws.HitIsUnderMouse | ext/raygui.h:3222-3266 | the item hit stands under the mouse where it is drawn, and none stands there if none is hit |
| Drawing.CallFaithful | ext/raygui.h:1564-3881 | whatever a composite control nests, everything it draws is in the user's style but for the forced properties, and labels are centred |
| Drawing.FrameFaithful | ext/raygui.h:1564-3881 | the same for any sequence of composite controls |
| DrawingLaws.CallParts | ext/raygui.h:1564-3881 | exactly which controls each composite control draws, in order, tooltips and bars included |
| DrawingLaws.CallReads | ext/raygui.h:1564-3881 | what each of them reads when drawn: labels and forced buttons are centred, framed ones have a border of one, tabs are left-aligned with a padding of 8, and text boxes, value boxes, status bars and unforced controls have the user's own table |
| Controls.Gui.DrawFrame | ext/raygui.h:1564-3881 | any sequence of composite controls, tooltips included, leaves a loaded style table exactly as it was |
| Codec.ReadBack | src/message_types.hpp:344-377 | every message of the nine kinds reads back from its archive, whatever stale bytes follow |
| Codec.ArchivePrefixFree | src/message_types.hpp:344-377 | two archives of one kind that agree with some bytes after them are the same message and the same bytes |
| Codec.Relay | src/networking.cpp:105-140 | written and read through any buffer, behind any header of the library's, a message arrives unchanged exactly when it fits |
| Membership.ReplayExplained | src/connector.cpp:155-243 | for every history the list holds exactly the members the log defines, each once, in joining order, with the time each was last heard of |
| Membership.ListIsMembership | src/connector.cpp:164-238 | the same after the whole history, and no ip is listed twice |
| Membership.SilentClientGoes | src/connector.cpp:226-238 | a silent one is gone after the first sweep over 3 s past its last sign of life, until it connects again |
| Connector.RunKeepsInv | src/connector.cpp:155-243 | at every point of every interleaving the list is the replay of the log, and the last copy is the list or a thread still owes a broadcast |
| Connector.QuiescentSnapshot | src/connector.cpp:107-124 | with no broadcast pending, the last copy holds exactly the members by the log, each ip once, with nonzero ids |
| Connector.GaplessMemberStays | src/connector.cpp:96-105 | at every point of every interleaving, a member whose signs of life in the log are never over 3 s apart, the last one not over 3 s ago, is listed unless it has disconnected; by `LogIsHistory` the log carries the times of the steps |
| ConnectorRuns.LogIsHistory | src/connector.cpp:155-243 | in every interleaving the log is the history of its steps: each CONNECT and status is stamped with the clock of its own step, each sweep with that of the cleanup loop's last waking |
| ConnectorRuns.InTouchStaysListed | src/connector.cpp:35-238 | in every interleaving, a client that joins and at no later point was last heard of over 3 s before is listed at every later point unless it says goodbye; over the clocks of the steps alone |
| ConnectorRuns.JoinedStaysListed | src/connector.cpp:173-238 | so a client that joins is listed for the next 3 s, whatever else happens, unless it says goodbye |
| ConnectorRuns.SweepExactly | src/connector.cpp:226-238 | a sweep leaves a listed member in if and only if it began no more than 3 s after the member was last heard of |
| ConnectorRuns.BroadcastsCounted | src/connector.cpp:107-243 | in every interleaving, each new member, goodbye and sweep that takes a member out makes exactly one copy of the list, and each copy is sent once; what is missing is still owed or under way |
| Connector.LastSentExactly | src/connector.cpp:107-137 | with no broadcast pending, the list last sent is the membership if and only if the thread that copied last also sent last, or the last copies of the two agree |
| Connector.QuiescentWire | src/connector.cpp:107-137 | so it is whenever broadcasts do not overlap |
| Connector.OverlapLeavesStaleList | src/connector.cpp:107-137 | a run with overlapping broadcasts after which the list last sent lacks a member |
| Coordinator.LeaderExists | src/player.cpp:83-92 | every list has exactly one leader unless all its ids are zero |
| Coordinator.ConnectorListsHaveLeaders | src/connector.cpp:24 | every list the connector can copy is empty or has a leader with an address and a nonzero id |
| Coordinator.BothSearches | src/listener.cpp:16-27 | on such a list the two searches agree: the empty ip means the empty list, and a listener claims the lead exactly when the client addressed carries its own nonzero id |
| Listener.QueueConserved | src/player.cpp:125-220 | over every run, songs taken then the queue are the first queue then the songs added; the song playing is the last taken; the queue never grows past 128, or what it began with, by more than the five songs the loop adds |
| Listener.CapExactly | src/player.cpp:125-220 | over every run from a queue within it, the cap of 128 holds at every point if and only if the queue held at most 123 songs when the loop began; `SeedOverCap` is a run that breaks it |
| Listener.CappedForGood | src/player.cpp:208-220 | once the loop has begun, a queue within the cap stays within it, over every run |
| Listener.PausedAsTold | src/listener.cpp:84-98 | over every run the pause flag is what the last START or STOP said |
| ListenerRuns.ListAsTold | src/listener.cpp:183-195 | over every run the client list is the one in the last CONNECTOR_LIST_UPDATE and the id the one in the last CONNECTOR_LIST; without such a message each is what it was |
| ListenerRuns.KnownSongsPlay | src/player.cpp:138-176 | if only known songs are added, no frame of any run throws |
| Listener.EndingsFair | src/player.cpp:138-151 | in every run, the elapsed time and what statuses dropped are together the seconds played since the song began: the sum of the unpaused frames longer than 0 s and shorter than 1 s; a song that ended was played over its duration and its dropped time, and under one second more; `RoundingDelaysEnding` is one played over two seconds more than its duration |
| Listener.PlayingTime | src/player.cpp:138-151 | in every run, k songs played to their ends take, summed over the frames, between their durations and dropped times, and k seconds more; nothing is dropped without a status from another leader |
| Listener.FollowerStalls | src/listener.cpp:155-172 | a follower that hears a status after each frame never moves on in its song |
| Colour.ColouredHsvBack | ext/raygui.h:5035-5155 | the same for positive saturation: the identity if and only if saturation times value reaches 0.00001 |
| Colour.SectorPicture | ext/raygui.h:5103-5152 | the hue names a sector and a place in it, and the switch paints there the colour with that value, chroma and middle channel |
| Colour.HueOfPicture | ext/raygui.h:5051-5083 | the hue, saturation and value of any colour painted in any sector, the wrap below zero included |
| Colour.AsPicture | ext/raygui.h:5042-5077 | every colour that is not grey is painted at a place inside one of the six sectors |
| Colour.HueSector | ext/raygui.h:5035-5084 | the hue computed for a visible colour is the one at which the other conversion paints it |
| Colour.VisibleRoundTrip | ext/raygui.h:5035-5155 | the identity for every visible colour with a positive channel |
| Utf8.MasksAreArithmetic | ext/raygui.h:5471-5487 | on 32-bit words the encoder's shifts and masks are the quotients, remainders and sums of the model |
| Utf8.TestsAreArithmetic | ext/raygui.h:5508-5529 | the decoder's mask comparisons are the range conditions of the model |
| Utf8.JoinIsSum | ext/raygui.h:5512-5526 | joining the decoder's shifted bit groups is a weighted sum |
| Utf8.GetCodepointNext | ext/raygui.h:5501-5538 | a step takes one to four bytes and never reads past the closing NUL, on any bytes |
| Utf8.StepSize | ext/raygui.h:5501-5538 | on arbitrary bytes a step takes all that its first byte announces if it is there, and else a single byte, read as a question mark |
| Utf8.DecodeEncoded | ext/raygui.h:5459-5538 | an encoded code point decodes to itself with the encoder's size, wherever it stands |
| Utf8.EncodedBytes | ext/raygui.h:5459-5494 | ASCII is encoded as itself, everything else in bytes of 0x80 and above |
| Utf8.OverlongAccepted | ext/raygui.h:5522-5528 | C0 80 is read as code point 0, which is not written so |
| Utf8.MeasureLine | ext/raygui.h:4580-4586 | the length of the line up to a NUL or newline, at most 256 |
| Utf8.ScanLine | ext/raygui.h:4580-4601 | the steps of the scan cover the line without gap or overlap and never leave it; a line over 256 bytes is covered up to the character across the limit |
| TextSplit.Splitter.GuiTextSplit | ext/raygui.h:4978-5031 | of a text of any length, the first 1024 bytes: each result points at its piece in the buffer, each but the last a C string and the last one if and only if there is room for its NUL; each row number is the newlines before the piece, and slots beyond the count keep what they held |
| TextSplit.Splitter.ReadByte | ext/raygui.h:5007-5026 | one turn of the loop keeps the bytes read so far split and laid out, and stops at the NUL or when the slots run out |
| TextSplit.Splitter.CutPiece | ext/raygui.h:5011-5024 | a separator closes the last piece with a NUL and opens an empty one with its row number |
| TextSplit.Splitter.CutAt | ext/raygui.h:5013-5021 | the next slot points past the separator, the next row counts it if it is a newline, the byte becomes NUL |
| TextSplit.Splitter.Reset | ext/raygui.h:4999-5004 | a zeroed buffer, the first piece at its head in row 0 |
| TextSplit.NewlinesCounted | ext/raygui.h:5017-5018 | the row of a piece is how often a newline occurs before it |
| Decimal.ValueOfPrint | ext/raygui.h:2835 | printed digits stand for the number they were printed from |
| Decimal.PrintDropLast | ext/raygui.h:2876-2885 | dropping the last printed digit divides by ten |
| ValueBox.TextToInteger | ext/raygui.h:5442-5456 | the reader gives the signed number at the head of the text, or overflows exactly when its magnitude passes 2147483647 |
| ValueBox.ParseTyped | ext/raygui.h:2867-2872 | a digit typed after the printed number v reads as 10v and the digit, away from zero |
| ValueBox.ParseDeleted | ext/raygui.h:2877-2885 | the printed number without its last character reads as v divided by ten, toward zero |
| ValueBox.GuiValueBox | ext/raygui.h:2825-2905 | unchanged while input is off, clamped outside edit mode, edited inside it |
| ValueBox.EditText | ext/raygui.h:2855-2887 | a frame of editing gives the typed or divided value, without clamping |
| ValueBox.TypeKey | ext/raygui.h:2862-2874 | exactly the keys 48 to 57 are appended, while there is room and the text is narrower than the box |
| ValueBox.TakeBack | ext/raygui.h:2877-2885 | backspace drops the last character, if there is one |
| ValueBox.ClampNearest | ext/raygui.h:2895-2899 | out of edit mode a value is brought to the nearest one in range, and then stays |
| Style.GetAfterPut | ext/raygui.h:1540-1557 | a write changes the property it names, for every control if it is a base property of DEFAULT, and nothing else |
| Style.IntThroughWord | ext/raygui.h:1543-1556 | an `int` stored as unsigned and read back is unchanged |
| Style.StyleTable.GuiSetStyle | ext/raygui.h:1540-1550 | loads the defaults first if need be, then writes as above in place |
| Style.StyleTable.GuiGetStyle | ext/raygui.h:1553-1557 | reads the table, loading the defaults first if need be |
| Style.StyleTable.GuiLoadStyleDefault | ext/raygui.h:4078-4159 | the default writes are made in order, in place; `DefaultReads` says what the table then reads |
| DefaultStyle.LastDefault | ext/raygui.h:4078-4159 | the last value the default writes give each property of each control |
| DefaultStyle.DefaultColours | ext/raygui.h:4087-4098 | so every control reads the colours of DEFAULT |
| DefaultStyle.DefaultScrolls | ext/raygui.h:4144-4150 | and a bar under it divides by zero only with an empty range |
| StyleLoader.GuiLoadStyleFromMemory | ext/raygui.h:4327-4367 | loading a file is folding single writes over its records; without the signature nothing changes |
| StyleLoader.LoadRecord | ext/raygui.h:4353-4366 | one record, with its loop over all controls, is one write |
| StyleLoader.PropagationRedundant | ext/raygui.h:4364 | writing to a control what DEFAULT has just written changes nothing |
| StyleLoader.StyleFileHolds | ext/raygui.h:4331-4356 | a file laid out for given records is well formed and read back as those records |
| StyleLoader.OneRecordFile | ext/raygui.h:4331-4356 | the twenty bytes of a file with one record |
| ScrollGeometry.SliderEnd | ext/raygui.h:5198-5217 | whatever its size, no slider ends beyond its track, and its length is negative exactly when it does not fit |
| ScrollGeometry.SliderOutside | ext/raygui.h:5198-5204 | a slider of 16 pixels in a track of one gets length -1 and begins at 2 |
| ScrollLaws.NormaliseNearest | ext/raygui.h:5181-5182 | a value is brought to the nearest one in range |
| ScrollLaws.LeftAlone | ext/raygui.h:5222-5291 | without input for it a bar keeps its value: input off, the mouse elsewhere, another bar dragged or the button released |
| ScrollLaws.WheelMoves | ext/raygui.h:5248-5252 | a hovering mouse moves the value by the notches of its wheel, up to either end |
| ScrollLaws.PressedSlider | ext/raygui.h:5254-5268 | pressing the slider itself keeps the value |
| ScrollLaws.OwnDrag | ext/raygui.h:5226-5258 | a drag that began on a bar stays its own over any frames |
| ScrollLaws.BarTiles | ext/raygui.h:5183-5218 | arrow, track and arrow follow one another from border to border without gap or overlap |
| ScrollLaws.BarCentred | ext/raygui.h:5162-5218 | across the bar, track and slider are centred with their paddings, and the arrows are square and fill it |
| PanelGeometry.DecideBars | ext/raygui.h:1800-1805 | the two tests and their rechecks |
| PanelGeometry.TurnWheel | ext/raygui.h:1849-1880 | the scroll position after the wheel |
| PanelGeometry.LayOutPanel | ext/raygui.h:1800-1914 | bounds, slider size, value and range of each bar shown, and the view |
| PanelGeometry.NoRange | ext/raygui.h:1801-1847 | content one pixel over, in a panel with a border of one, is such a case |
| PanelLaws.BoundedNearest | ext/raygui.h:1882-1886 | a position out of range is brought to the nearest one in range |
| PanelLaws.PositionKept | ext/raygui.h:1882-1914 | a bar the mouse is not on leaves its direction at the position asked for, or at the nearest end of its range, so that a panel left alone keeps its place |
| PanelLaws.WheelTurns | ext/raygui.h:1874-1878 | the wheel moves a panel under the mouse in one direction only, sideways exactly if asked to and there is a bar for it, and back when turned back |
| PanelLaws.WheelSpeeds | ext/raygui.h:1781-1833 | a notch is 20 pixels, or 30 if a bar had to be lengthened to 40 |
| PanelLaws.WholePosition | ext/raygui.h:1899-1911 | a whole position reaches the bar as the value nearest to it |
| PanelLaws.BarsTakePosition | ext/raygui.h:1844-1914 | each bar gets the place, slider, bounded position and range of its own direction |
| PanelLaws.RangesAreOverflow | ext/raygui.h:1844-1847 | the horizontal range is what the content overflows the room by; the vertical one is a border less |
| PanelLaws.BoxUnderHeader | ext/raygui.h:1790-1798 | a panel is at least 48 high, and under a header begins a pixel into it |
| PanelLaws.BarsMeet | ext/raygui.h:1807-1833 | the two bars stand a border inside the panel, at the bottom and at their side, and meet in the corner without overlap |
| PanelLaws.BarAlone | ext/raygui.h:1807-1833 | a bar alone has the whole length inside the borders |
| PanelLaws.ViewFills | ext/raygui.h:1835-1842 | the view begins inside border and left bar, and reaches to the other bar or border where content overflows |
| ListGeometry.VisibleRange | ext/raygui.h:3232-3233 | between no and all items are visible |
| ListLaws.VisibleFit | ext/raygui.h:3232-3233 | the items visible are all there are, or as many as fit the box whole |
| ListLaws.KeepsPlace | ext/raygui.h:3235-3280 | a list left alone starts where it was left, if that leaves no gap |
| ListLaws.StartsAtTop | ext/raygui.h:3235-3236 | an index that leaves a gap, or none at all, starts the list at the top |
| ListLaws.BarKeepsPlace | ext/raygui.h:3325-3346 | the bar returns the index it was given when the mouse is elsewhere |
| ListLaws.WheelMovesList | ext/raygui.h:3268-3278 | the wheel moves the list by its notches, up to either end, and back |
| ListLaws.HoverFocuses | ext/raygui.h:3251-3280 | only a press on an item changes the selection; hovering one focuses it, leaving the list focuses none |
| ListLaws.ItemsStack | ext/raygui.h:3222-3323 | items follow one another a spacing apart, with the same room beside them, less the bar's |
| ListLaws.ItemsClearOfBar | ext/raygui.h:3222-3336 | items are clear of the bar exactly if the list's border is no wider than theirs and the spacing |
| ListLaws.SliderShare | ext/raygui.h:3333-3339 | the slider is to the box as the visible items are to all, to the pixel |
| Drawing.PositionInRange | ext/raygui.h:1899-1914 | a scroll position is within the range of its bar |
| DrawingLaws.ForcedReads | ext/raygui.h:1590-1605 | each forced property reads back as the value forced |
| Controls.Gui.GuiListViewEx | ext/raygui.h:3211-3353 | the bar is used only when items are hidden, and exactly then with items of positive height; drawn indices exist and are consecutive; range and speed handed to the bar are equal and at least one; the index returned leaves no gap; the style table is unchanged; for boxes and items of any height the divisions allow |
| Controls.Gui.ListInput | ext/raygui.h:3246-3280 | focus, selection and start index after the input of a frame |
| Controls.Gui.FindItem | ext/raygui.h:3251-3266 | the search loop finds that item |
| Controls.Gui.ItemsFrom | ext/raygui.h:3292-3323 | the items drawn are consecutive from the start index |
| Controls.Gui.DrawListBar | ext/raygui.h:3325-3346 | the bar is drawn under the forced size and speed, and both are put back |
| Controls.ForcedSpeed | ext/raygui.h:3337-3342 | the bar reads back the speed and the slider size forced for it |
| Controls.Gui.GuiScrollBar | ext/raygui.h:5158-5323 | value, dragging flag and dragged bounds after a frame, as the laws of `ScrollLaws` describe them; the speed must not be zero only when an arrow is clicked |
| Controls.Gui.UpdateBar | ext/raygui.h:5222-5291 | the same for the update section alone |
| Controls.Gui.GuiScrollPanel | ext/raygui.h:1774-1933 | the bars follow from box and content; each is drawn under the slider size forced for it and leaves its scroll position where its value says; the size saved first is put back |
| Controls.Gui.DrawBar | ext/raygui.h:1898-1914 | one bar of a panel under its forced size, its position and the slider being dragged afterwards |
| Controls.Gui.GuiTooltip | ext/raygui.h:4956-4974 | the label is drawn centred without padding, and both properties are put back |
| Controls.Gui.GuiWindowBox | ext/raygui.h:1564-1609 | the close button is drawn with the forced border and alignment, and both are put back |
| Controls.Gui.GuiTabBar | ext/raygui.h:1703-1771 | every tab on screen is drawn under its forced properties, all put back |
| Controls.Gui.DrawTab | ext/raygui.h:1730-1762 | one tab, its toggle and its close button |
| Controls.Gui.GuiComboBox | ext/raygui.h:2260-2321 | drawn with forced border and alignment, put back in the other order |
| Controls.Gui.GuiSpinner | ext/raygui.h:2750-2821 | the buttons are drawn in the user's own style, the properties forced after them are put back unused |
| Controls.Gui.GuiMessageBox | ext/raygui.h:3741-3790 | a window box, a centred label and a row of centred buttons; the table is unchanged |
| Controls.Gui.GuiTextInputBox | ext/raygui.h:3793-3881 | the same with the text box and the secret toggle drawn in the user's own style |
| Controls.RestoreTwo | ext/raygui.h:1595-1605 | two forced properties of a control are undone by writing the saved values in either order |
| Controls.SliderRestored | ext/raygui.h:1896-1927 | one saved slider size undoes two forced ones |
| Controls.Gui.DoCall | ext/raygui.h:1564-3881 | each composite control leaves the table as it was |
| Codec.ReadToken | src/message_types.hpp:344-377 | a number token reads back, whatever follows |
| Codec.ReadBackText | src/message_types.hpp:139-150 | a string of any characters reads back by its length |
| Codec.ReadBackClientVector | src/message_types.hpp:158-178 | a client list of any length reads back by its count |
| Codec.ReadBackStatus | src/message_types.hpp:97-110 | a status with a queue of any length reads back |
| Codec.OutputArchive.PutPayload | src/message_types.hpp:344-377 | serialising out puts the archive of the message, field by field |
| Codec.OutputArchive.PutClients | src/message_types.hpp:139-178 | the loop over a vector puts its count and its elements |
| Codec.WriteMessageToBuffer | src/networking.cpp:105-123 | succeeds exactly when tag, header and archive fit; later bytes stay; a message that does not fit leaves its front in a full buffer |
| Codec.InputArchive.GetHead | src/networking.cpp:125-140 | the header is read off the buffer exactly when it is there |
| Codec.InputArchive.GetNumber | src/networking.cpp:125-140 | a number token is read off the buffer; only a good one moves the position |
| Codec.InputArchive.GetClients | src/message_types.hpp:139-178 | a counted vector of clients is read off the buffer |
| Codec.InputArchive.GetPayload | src/message_types.hpp:344-377 | the payload the tag names is read, or a malformed archive reported |
| Codec.ReadMessageFromBuffer | src/networking.cpp:125-140 | the message at the head of the buffer; a foreign header or a malformed archive is an error |
| Codec.ReadCarried | src/networking.cpp:105-140 | a buffer that carries a message reads as that message |
| Codec.WireFormat | src/message_types.hpp:344-377 | tag and archive of a message of each kind, character by character |
| Membership.ClientTable.AddClient | src/connector.cpp:169-176 | a new ip is appended, a listed one left alone |
| Membership.ClientTable.RemoveClient | src/connector.cpp:86-94 | every entry with the ip goes, the others keep their order |
| Membership.ClientTable.Erase | src/connector.cpp:93 | the entries picked go, and the count tells whether any did |
| Membership.ClientTable.RefreshTimeout | src/connector.cpp:96-105 | every entry with the ip is stamped, the others are not |
| Membership.ClientTable.EraseTimedOut | src/connector.cpp:228-238 | entries stamped over 3 s before the clock reading go |
| Membership.ClientTable.SnapshotList | src/connector.cpp:117-124 | the copy holds the clients in order |
| Membership.MemberIsListed | src/connector.cpp:155-243 | a client is listed if and only if by the log it joined and neither said goodbye nor was swept since |
| Connector.StepKeepsInv | src/connector.cpp:155-243 | every step of either thread keeps the invariant below |
| Connector.RunStampsInOrder | src/connector.cpp:226-238 | in every run, a sweep acts on a clock reading no later than the present, or than any status handled after it |
| Connector.SweepWithinGap | src/connector.cpp:226-238 | so a sweep between two signs of life sees no longer silence than lies between them |
| Connector.RunTraced | src/connector.cpp:107-137 | in every run, what the threads copied last is what they are sending or have sent |
| Connector.RunInTurn | src/connector.cpp:107-137 | while broadcasts do not overlap, the thread that copied last is the one that sends next or has sent last |
| Connector.RunWireFollows | src/connector.cpp:107-137 | the same over every run |
| ConnectorRuns.UnlistedStays | src/connector.cpp:164-176 | in every interleaving, who does not connect does not become a member |
| ConnectorRuns.NeverStuck | src/connector.cpp:107-243 | neither thread is ever stuck, and a handler owing nothing takes any message |
| Coordinator.FindCoordinator | src/player.cpp:83-92 | the ip of the first client with the largest id, empty if no id is positive |
| Coordinator.IsThisCoordinator | src/listener.cpp:16-27 | true exactly when the leader carries the own id; without a leader, when that id is zero |
| Playback.MusicPlayer.NextSong | src/player.cpp:181-190 | the front of the queue becomes the song, from its beginning |
| Playback.MusicPlayer.Skip | src/player.cpp:192-206 | the same, and nothing on an empty queue |
| Playback.MusicPlayer.AddToQueue | src/player.cpp:208-220 | appended while the queue is under 128 |
| Playback.MusicPlayer.TogglePause | src/player.cpp:228-232 | only the pause flag turns |
| Playback.MusicPlayer.GetStatus | src/player.cpp:234-245 | the status, its elapsed time in whole seconds toward zero |
| Playback.MusicPlayer.SetStatus | src/player.cpp:247-253 | all four fields are overwritten |
| Playback.MusicPlayer.SeedQueue | src/player.cpp:125-129 | five songs are pushed without the cap |
| Playback.MusicPlayer.DrawFrame | src/player.cpp:131-176 | the player after a frame; a frame is drawn exactly when the player is not paused and its song and all queued are known, with the progress elapsed over duration, in [0,1], and throws for an unknown song |
| Listener.ListenerNode.CmHandler | src/listener.cpp:81-98 | START, STOP and SKIP on the player; other codes do nothing |
| Listener.ListenerNode.SsHandler | src/listener.cpp:152-175 | the coordinator's player is left alone, any other is set to its own status |
| Listener.ListenerNode.MessageHandler | src/listener.cpp:197-221 | player and client list after any message; `ListAsTold`, `PausedAsTold` and `QueueConserved` say what they are over runs |
| Listener.StepConserves | src/player.cpp:181-220 | every message or frame keeps the conservation law below |
| Listener.StepCaps | src/player.cpp:181-220 | a message or frame keeps a queue within the cap; the songs the loop begins with do if and only if there is room for them |
| Listener.SeedOverCap | src/player.cpp:125-129 | a run from the start whose queue holds 133 songs |
| ListenerRuns.StepPlaysKnown | src/player.cpp:138-220 | an event that adds only known songs leaves only known songs |
| Listener.StepFair | src/player.cpp:138-151 | every step keeps the elapsed time within the song and the account of played and dropped time |
| Listener.StepHistory | src/player.cpp:138-220 | what one event does to the seconds played and the songs ended, from the event alone |
| Listener.HistoryKept | src/player.cpp:138-220 | the account of every run is its history, summed over the events |
| Listener.TotalsFair | src/player.cpp:138-151 | sums of fair endings stay between the durations and dropped times, and one second more for each |
| Listener.NothingLost | src/listener.cpp:152-172 | without a status from another leader nothing is dropped of any song |
| Listener.RoundingDelaysEnding | src/listener.cpp:152-172 | a song of 15 seconds that is played for 17.6 |

## Left out

- Drawing, fonts, textures, icons, word wrap and the style data in `src/gui.cpp`: no state the properties speak of.
- Sockets, coroutines, timers, logging and `parse_cmd_arg`: a message or a timeout is an event.
- The per-client knocker thread (`src/connector.cpp:51-84`): its loop never ends; an entry is a client and its timeout.
- Replication between listeners, a unique leader, and the messages listeners send in reply: the relay sends nothing from the coordinator, and the id a client is told and the id listed for it are separate draws.
- Copying, moving and the union lifetime of `Message`: the union is a datatype.
- The timed wait in `next_song`, and pauses during it: a frame that ends a song happens when the queue has one, as one atomic step.
- `GuiTextBox` editing and raylib's own helpers: they are not part of this model.
- Boost's class information between the fields: the archive is a header given as a parameter, then the fields as terminated decimal tokens with counts and lengths in front; the exceptions of a bad or full stream are error results.
- Rounding of `float`: `real` is used throughout.
- Data races of the unlocked `refresh_timeout` and of frames with handlers: each is one atomic step.
- Hovering, tooltips shown, tabs on screen and text narrower than its box depend on drawing and are parameters.
- Gui.GuiSpinner: says what is drawn and which properties are forced; its value, one more or less at a click and then clamped, is not part of this model.
- Splitter.GuiTextSplit: the text must end with a NUL, and the row array must have room for the rows written; by `RowsFit` the 32 rows of `GuiToggleGroup` have it exactly for texts with fewer than 32 separators.
- Gui.GuiListViewEx: asks that the divisions are defined and the numbers fit `int`; `LayableExactly` says when the divisions are.
- Gui.GuiScrollBar: asks for a nonzero range, and for a nonzero speed when an arrow is clicked, as the code's divisions do.
- Gui.GuiScrollPanel: asks for the same of its bars, and for content of a pixel or more where it is divided by; casts of floats are taken to fit `int`.
- GuiLoadStyleFromMemory: takes records in range and a file as long as it says, as the code does; the font part of the file is not read.
- TypeAllValue: leaves out the smallest `int` as a start, which is already out of reach of the reader.
- DragFromCentre: speaks of the exact centre of the slider; other places on it differ by the same offset.
