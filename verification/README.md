# Piscina Natural: a Dafny model of the pool dashboard

This project models the core of the "Piscina Natural" pool-monitoring
dashboard in Dafny and proves properties of that model.

- **Free-chlorine estimator** (`chlorine.dfy`, module `Chlorine`): the
  frontend's `calculatePPM`. It turns a pH value and an ORP
  (oxidation-reduction potential) reading in millivolts into parts per
  million of free chlorine. The steps:
  - zero guard;
  - pH clamp to [6.5, 8.0];
  - saturation sentinels below 400 mV (0) and above 950 mV (5);
  - choice of the reference curve whose pH anchor is nearest;
  - linear extrapolation below the curve's 0.5 ppm point;
  - a scan over consecutive control points, with linear interpolation and
    rounding to one decimal;
  - the 4.0 fallback.

  The scan visits the control points in the order `Object.entries` lists
  the curve's keys: "1", "2", "3", "4", then "0.5". So `Estimate` is
  written once, parameterised by that order. `CalculatePPM` is the function
  as written. `CalculatePPMSorted` scans in ascending ppm order; see
  Findings.
- **Pool grid** (`pagination.dfy`, module `Pagination`): `PiscinaGrid`.
  - Grid layout and pages per layout.
  - The slice of pools each page shows.
  - Previous/next buttons and arrow keys.
  - Automatic rotation.
  - Fullscreen exit by Escape.
  - The detail modal, the fullscreen hint and the auto-rotate controls.

  The screen is an immutable `Screen` value. Every event handler is a pure
  function on it.
- **Layout panel** (`gridconfig.dfy`, module `GridConfig`): `GridConfig`.
  - The table of seven layouts and the filter by pool count.
  - The fallback to all layouts.
  - The "showing a-b of n" counter.
  - The active highlight, and opening, closing and selecting in the panel.
- **Layout icon** (`layouticon.dfy`, module `LayoutIcon`): the miniature
  grid drawn for each layout.
- **Reading classifiers** (`readings.dfy` and `modal.dfy`, modules
  `Readings` and `Modal`): the colour classes of the pool card and the
  modal for temperature, pH and chlorine, plus the pH gauge marker.
- **Controller mapping** (`watch.dfy`, module `Watch`): the monitoring
  page's translation of controller records into pool cards.
- **Backend** (`sanitize.dfy` and `sessions.dfy`, modules `Sanitize` and
  `Sessions`):
  - field removal from controllers, sensors and users;
  - the latest sensor value;
  - relabelling of the seven coded controller columns;
  - the e-mail column lookup;
  - the in-memory session store: login, validate, refresh and logout.

  Clock readings and generated tokens are parameters.

`basics.dfy` (`Option`, `Result`, small min/max helpers) and `text.dfy`
(prefix tests, replace-all, ASCII lower-casing, decimal rendering of
integers) hold the shared vocabulary.

## Model

| member | source | states |
|---|---|---|
| Chlorine.Round1 | frontend/src/utils/chlorineCalculator.ts:91 | `Number(x.toFixed(1))` is within 0.05 of x, has one decimal and keeps the sign of x |
| Chlorine.Round1Monotone | frontend/src/utils/chlorineCalculator.ts:104 | rounding to one decimal never reverses the order of two values |
| Chlorine.Round1Exact | frontend/src/utils/chlorineCalculator.ts:104 | a value that already has one decimal is left unchanged by the rounding |
| Chlorine.TableKeys | frontend/src/utils/chlorineCalculator.ts:71-80 | the reference table has exactly the five pH anchors 7.0…7.8, and the sorted key list is strictly increasing |
| Chlorine.TableRows | frontend/src/utils/chlorineCalculator.ts:72-76 | in every curve the millivolts strictly increase with ppm, the 0.5 ppm point lies in (400, 625] and the 4 ppm point below 950 |
| Chlorine.TableColumnwise | frontend/src/utils/chlorineCalculator.ts:49-50 | for a fixed ppm, the millivolts fall from one pH anchor to the next, as the table's comment says |
| Chlorine.NearestIsFirstMinimiser | frontend/src/utils/chlorineCalculator.ts:81-83 | the `reduce` returns the first key at minimal distance from the clamped pH (ties keep the earlier key) |
| Chlorine.NearestMatchesThresholds | frontend/src/utils/chlorineCalculator.ts:80-83 | on the table's keys, the nearest anchor equals a closed threshold description (≤7.1 → 7.0, ≤7.3 → 7.2, …) |
| Chlorine.ClampPh | frontend/src/utils/chlorineCalculator.ts:56 | the clamped pH lies in [6.5, 8.0] and equals the input inside that range |
| Chlorine.SelectedRow | frontend/src/utils/chlorineCalculator.ts:80-85 | the curve used is the table row of the nearest anchor to the clamped pH, and it is a valid curve |
| Chlorine.LerpBetween | frontend/src/utils/chlorineCalculator.ts:101-103 | the interpolated ppm lies between the two control points' ppm values whenever the reading lies between their millivolts |
| Chlorine.LerpEndpoints | frontend/src/utils/chlorineCalculator.ts:102-103 | at either control point's millivolts the interpolation returns that point's ppm |
| Chlorine.LerpMonotone | frontend/src/utils/chlorineCalculator.ts:102-103 | on an increasing segment the interpolation is non-decreasing in the reading |
| Chlorine.FirstCoverFrom | frontend/src/utils/chlorineCalculator.ts:97-101 | finds the first pair of consecutive points whose millivolt interval contains the reading, and None exactly when no pair does |
| Chlorine.ScanFirstCover | frontend/src/utils/chlorineCalculator.ts:97-106 | the scan returns the rounded interpolation over the first covering pair |
| Chlorine.FindInterval | frontend/src/utils/chlorineCalculator.ts:97-106 | the loop over pairs (i, i + 1) returns what the scan over the first covering pair returns |
| Chlorine.InWindow | frontend/src/utils/chlorineCalculator.ts:89-109 | inside the [400, 950] window the result lies in [0.3, 4.0] and has one decimal: neither sentinel is produced |
| Chlorine.Estimate | frontend/src/utils/chlorineCalculator.ts:52-110 | in either scan order the estimate lies in [0, 5], has one decimal, and is 0 when pH or ORP is 0 |
| Chlorine.CalculatePPM | frontend/src/utils/chlorineCalculator.ts:52-110 | `calculatePPM` returns a value in [0, 5] and 0 for a zero pH or zero ORP |
| Chlorine.SaturationSentinels | frontend/src/utils/chlorineCalculator.ts:59-60 | below 400 mV the result is 0, above 950 mV it is 5, and in between it is in [0.3, 4.0] |
| Chlorine.PhClamp | frontend/src/utils/chlorineCalculator.ts:56 | every pH at or below 6.5 (at or above 8.0) gives the same result as 6.5 (8.0) |
| Chlorine.ExtremeAnchors | frontend/src/utils/chlorineCalculator.ts:56-85 | every pH at or below 7.0 uses the 7.0 curve, every pH at or above 7.8 the 7.8 curve |
| Chlorine.LowerExtrapolation | frontend/src/utils/chlorineCalculator.ts:89-92 | below the curve's 0.5 ppm point the result is the line through the origin, rounded, and lies in [0.3, 0.5] |
| Chlorine.Interpolation | frontend/src/utils/chlorineCalculator.ts:95-105 | on the 1–2, 2–3 and 3–4 ppm intervals the result is the rounded interpolation, and lies inside the interval |
| Chlorine.ExactControlPoints | frontend/src/utils/chlorineCalculator.ts:72-76 | each tabulated 1, 2, 3 and 4 ppm reading of the selected curve maps back to exactly that ppm |
| Chlorine.ReferenceControlPoints | frontend/src/utils/chlorineCalculator.ts:72 | at pH 7.0, 715 mV reads 1.0 ppm and 805 mV reads 2.0 ppm |
| Chlorine.SelectedReferenceRows | frontend/src/utils/chlorineCalculator.ts:72-85 | pH 7.0 selects the 7.0 curve and pH 7.3 the 7.2 curve |
| Chlorine.ReferenceMidpoint | frontend/src/utils/chlorineCalculator.ts:101-104 | halfway between the 1 and 2 ppm points of any selected curve the result is 1.5 |
| Chlorine.ReferenceTieBreak | frontend/src/utils/chlorineCalculator.ts:81-83 | every pH in (7.1, 7.3] uses the 7.2 curve (at the 7.3 tie the lower anchor wins), where 715 mV reads 1.1 |
| Chlorine.FallbackGap | frontend/src/utils/chlorineCalculator.ts:95-109 | a reading between the 0.5 and 1 ppm points of the selected curve is covered by no pair in entry order and falls through to 4.0 |
| Chlorine.NotMonotoneInOrp | frontend/src/utils/chlorineCalculator.ts:95-109 | as written, a higher ORP can give a lower estimate: 700 mV reads more than 715 mV at pH 7.0 |
| Chlorine.RawMonotone | frontend/src/utils/chlorineCalculator.ts:50 | the piecewise-linear curve through the origin and the five control points is non-decreasing in ORP, as the table's comment says |
| Chlorine.SortedInWindowIsRoundedRaw | frontend/src/utils/chlorineCalculator.ts:89-106 | with ascending scan order, inside the window the estimate is that piecewise-linear curve rounded |
| Chlorine.SortedMonotoneInOrp | frontend/src/utils/chlorineCalculator.ts:89-109 | with ascending scan order the estimate is non-decreasing in ORP for every fixed non-zero pH |
| Chlorine.SortedDiffersOnlyOnGap | frontend/src/utils/chlorineCalculator.ts:95-109 | the two scan orders agree everywhere except between the 0.5 and 1 ppm points, where the sorted one reads in [0.5, 1.0] and the original 4.0 |
| Pagination.PerPage | frontend/src/components/PiscinaGrid.tsx:71 | a page holds columns × rows pools, at least as many as either dimension |
| Pagination.TotalPages | frontend/src/components/PiscinaGrid.tsx:72 | `Math.ceil(n / perPage)`: the fewest pages that hold n pools, and 0 exactly when there are none |
| Pagination.Slice | frontend/src/components/PiscinaGrid.tsx:75 | `Array.prototype.slice` with clamping: the elements from start up to min(end, length), in order |
| Pagination.PageSlice | frontend/src/components/PiscinaGrid.tsx:73-75 | page p shows the pools p·per, p·per + 1, … in list order, at most per of them, and none past the end |
| Pagination.PagesUpToIsPrefix | frontend/src/components/PiscinaGrid.tsx:73-75 | the first k pages, concatenated, are the first k·per pools of the list |
| Pagination.AllPagesCoverList | frontend/src/components/PiscinaGrid.tsx:72-75 | all pages together show the whole list, each pool once and in order |
| Pagination.PoolOnItsPage | frontend/src/components/PiscinaGrid.tsx:72-75 | pool i is shown on page i / per, at position i mod per, and that page exists |
| Pagination.NextPage | frontend/src/components/PiscinaGrid.tsx:108-112 | "next" advances by one exactly when a later page exists, otherwise it does nothing |
| Pagination.PrevPage | frontend/src/components/PiscinaGrid.tsx:114-118 | "previous" goes back by one exactly when the page is not the first |
| Pagination.NextPrevRoundTrip | frontend/src/components/PiscinaGrid.tsx:108-118 | next and previous keep the page in range and undo each other when they move |
| Pagination.DisabledIffNoOp | frontend/src/components/PiscinaGrid.tsx:233 | a button is disabled exactly when pressing it would do nothing (left at page 0, right at the last page; line 305) |
| Pagination.RotateStep | frontend/src/components/PiscinaGrid.tsx:82-85 | one rotation tick moves to the next page, and to page 0 exactly from the last page (or beyond) |
| Pagination.RotateAdvances | frontend/src/components/PiscinaGrid.tsx:81-86 | k ticks from a page with k pages after it advance by exactly k |
| Pagination.RotateCompose | frontend/src/components/PiscinaGrid.tsx:81-86 | a ticks followed by b ticks equal a + b ticks |
| Pagination.RotationIsCyclic | frontend/src/components/PiscinaGrid.tsx:81-86 | after as many ticks as there are pages, rotation is back on the page it started from, having visited every page from 0 |
| Pagination.Initial | frontend/src/components/PiscinaGrid.tsx:18-35 | the grid starts with the given layout on page 0, no modal, no selection, no hint, not fullscreen, rotation off at 30 seconds |
| Pagination.ChangeGrid | frontend/src/components/PiscinaGrid.tsx:42-44 | changing the layout resets the page to 0 only when columns or rows change, and nothing else |
| Pagination.Tick | frontend/src/components/PiscinaGrid.tsx:78-89 | an armed timer tick moves only the page, to the rotation step's next page; it does nothing unless rotation is on and there is more than one page |
| Pagination.KeyDownEffects | frontend/src/components/PiscinaGrid.tsx:48-63 | Escape leaves fullscreen; the arrows page only with no modal and outside fullscreen; the default is prevented exactly when the handler acts on the key: Escape in fullscreen, or an arrow with neither modal nor fullscreen up (even when the page cannot move) |
| Pagination.CardClick | frontend/src/components/PiscinaGrid.tsx:91-99 | in fullscreen a click only shows the hint; otherwise it opens the modal on that pool and keeps the page |
| Pagination.CloseModal | frontend/src/components/PiscinaGrid.tsx:101-104 | closing hides the modal, clears the selection and changes nothing else |
| Pagination.OpenThenCloseRestores | frontend/src/components/PiscinaGrid.tsx:91-104 | opening a card and closing the modal restores the screen (outside fullscreen; in fullscreen only the hint remains) |
| Pagination.GoToPage | frontend/src/components/PiscinaGrid.tsx:265-268 | a page-number button sets the page to its index and changes nothing else |
| Pagination.HideToast | frontend/src/components/PiscinaGrid.tsx:94 | the hint's timeout hides the hint and changes nothing else |
| Pagination.HintThenHideRestores | frontend/src/components/PiscinaGrid.tsx:91-96 | in fullscreen, a card click followed by the hint's timeout leaves the screen as it was |
| Pagination.SetRotateSeconds | frontend/src/components/PiscinaGrid.tsx:166 | the interval setter changes the rotation period and nothing else |
| Pagination.ToggleAutoRotate | frontend/src/components/PiscinaGrid.tsx:165 | the toggle flips rotation and nothing else |
| Pagination.ToggleAutoRotateTwice | frontend/src/components/PiscinaGrid.tsx:165 | toggling twice restores the screen |
| Pagination.AutoRotateProps | frontend/src/components/PiscinaGrid.tsx:150-167 | outside fullscreen, the rotation controls are passed to the panel exactly when there is more than one page, carrying the current settings; in fullscreen the panel is not rendered at all |
| Pagination.StepsKeepPageInRange | frontend/src/components/PiscinaGrid.tsx:42-118 | every event keeps a page that is in range in range, for a fixed pool list |
| Pagination.InRangePageIsNonEmpty | frontend/src/components/PiscinaGrid.tsx:73-75 | an in-range page of a non-empty list shows at least one pool |
| Pagination.ShrinkLeavesStalePage | frontend/src/components/PiscinaGrid.tsx:42-44 | the page is reset only on a layout change: when the list shrinks, a page can fall out of range and show no pools, with the pagination hidden |
| GridConfig.LayoutTableShape | frontend/src/components/GridConfig.tsx:28-43 | seven layouts, each for 1 to 5 pools, each a valid grid, no two with the same columns and rows |
| GridConfig.FilterSuitsMembers | frontend/src/components/GridConfig.tsx:64-66 | the filter keeps exactly the layouts whose pool range contains the total |
| GridConfig.AppropriateLayoutsByCount | frontend/src/components/GridConfig.tsx:28-66 | the appropriate layouts are 1×1 for one pool, 2×1 and 1×2 for two, five for three, all but 1×1 for four or five, none otherwise |
| GridConfig.LayoutsToShow | frontend/src/components/GridConfig.tsx:69 | the panel never lists nothing: either the suitable layouts or, failing those, all of them |
| GridConfig.LayoutsToShowSuitable | frontend/src/components/GridConfig.tsx:64-69 | every suitable layout is listed, and when some exist only suitable ones are |
| GridConfig.ShowsAllIffNoneSuits | frontend/src/components/GridConfig.tsx:64-69 | the whole table is listed exactly when the total is outside 1…5 |
| GridConfig.NewPanel | frontend/src/components/GridConfig.tsx:45-57 | a new panel is closed, shows the given layout, and carries each supplied pool count, page and pools per page; missing props default to 8 pools, page 0 and 0 per page |
| GridConfig.GridPanelCountsVisible | frontend/src/components/PiscinaGrid.tsx:155-160 | the panel the grid renders from its screen counts exactly the pools the current page shows, starting after the earlier pages |
| GridConfig.EndPool | frontend/src/components/GridConfig.tsx:73 | the counter's last pool never exceeds the total |
| GridConfig.CounterMatchesPage | frontend/src/components/GridConfig.tsx:72-73 | for a page that shows pools, the counter's range is exactly the pools the grid shows |
| GridConfig.EmptyCounterIsBackwards | frontend/src/components/GridConfig.tsx:72-73 | with no pools the counter reads "1-0 of 0" |
| GridConfig.ShownRange | frontend/src/components/GridConfig.tsx:72-73 | the corrected counter never runs backwards and is (0, 0) exactly when the page shows nothing |
| GridConfig.ShownRangeMatchesPage | frontend/src/components/GridConfig.tsx:72-73 | the corrected counter spans exactly the pools on screen, also when there are none |
| GridConfig.IsActive | frontend/src/components/GridConfig.tsx:59-61 | a layout is highlighted exactly when it equals the current grid |
| GridConfig.AtMostOneActive | frontend/src/components/GridConfig.tsx:348-349 | at most one listed layout is highlighted |
| GridConfig.TogglePanel | frontend/src/components/GridConfig.tsx:129 | the settings button flips the panel open or closed and changes nothing else |
| GridConfig.CloseBackdrop | frontend/src/components/GridConfig.tsx:416 | the backdrop (and the close button, line 324) closes the panel and changes nothing else |
| GridConfig.SelectLayout | frontend/src/components/GridConfig.tsx:355-357 | choosing a layout reports its columns and rows and closes the panel |
| GridConfig.SelectedBecomesActive | frontend/src/components/GridConfig.tsx:355-357 | once the chosen grid is applied, the chosen layout is the highlighted one |
| LayoutIcon.PoolsToShow | src/components/LayoutIcon.tsx:10 | min(totalPools, cells), or every cell when totalPools is missing or 0 |
| LayoutIcon.Icon | src/components/LayoutIcon.tsx:9-31 | columns × rows cells; cell i is filled exactly when i is below the pools shown; unfilled cells are transparent |
| LayoutIcon.IconFillsPoolsToShow | src/components/LayoutIcon.tsx:24-30 | the number of filled cells equals the pools to show |
| LayoutIcon.ActiveOnlyRecolours | src/components/LayoutIcon.tsx:28-31 | highlighting changes colours only, never which cells are filled |
| Readings.TemperatureTone | src/components/PiscinaCard.tsx:49-53 | danger from 30 °C, warning in [25, 30), info below 25 |
| Readings.TemperatureIcon | src/components/PiscinaCard.tsx:55-60 | the thermometer is green in [25, 30), red from 30, orange below 25 |
| Readings.IconFollowsText | src/components/PiscinaCard.tsx:49-60 | the thermometer is red exactly when the text is danger, and green exactly when it is warning |
| Readings.PhTone | src/components/PiscinaCard.tsx:62-67 | success in [7.2, 7.6], warning in [7.0, 7.2) and (7.6, 7.8], danger otherwise |
| Readings.ChlorineTone | src/components/PiscinaCard.tsx:69-74 | success in [1.0, 2.0], warning in [0.8, 1.0) and (2.0, 2.5], danger otherwise |
| Readings.SuccessInsideEnvelope | src/components/PiscinaCard.tsx:62-74 | a success reading lies strictly inside the warning envelope on both sides |
| Readings.ClassNameInjective | src/components/PiscinaCard.tsx:49-74 | the four tones have distinct CSS class names |
| Readings.PhMarker | src/components/PiscinaCard.tsx:357 | the gauge position is (pH − 6) / 3 · 100 clamped to [0, 100] |
| Readings.PhMarkerMonotone | src/components/PiscinaCard.tsx:357 | a higher pH never sits lower on the gauge |
| Readings.TargetMarker | src/components/PiscinaCard.tsx:338-342 | the target mark is drawn exactly when a non-zero target pH exists, at that pH's gauge position |
| Modal.AgreesWithCard | src/components/PiscinaModal.tsx:25-43 | the modal classifies temperature, pH and chlorine exactly as the card's text does |
| Watch.FindFrom | frontend/src/pages/WatchPage.tsx:21 | finds the first sensor with the given name from a start index, and None exactly when none has it |
| Watch.FindSensor | frontend/src/pages/WatchPage.tsx:21 | `sensors?.find(...)`: the first sensor with that name, or none when the list is missing or holds none |
| Watch.SensorValue | frontend/src/pages/WatchPage.tsx:20-23 | a sensor's value, or 0 when the sensor or its value is missing |
| Watch.SensorUpperTh | frontend/src/pages/WatchPage.tsx:25-28 | a sensor's upper threshold, or none when the sensor or the threshold is missing |
| Watch.SensorStatus | frontend/src/pages/WatchPage.tsx:30-33 | a sensor's status, or 0 when the sensor or its status is missing |
| Watch.NameOr | frontend/src/pages/WatchPage.tsx:45 | `CtrlName \|\| fallback`: the name unless it is missing or empty |
| Watch.ToPool | frontend/src/pages/WatchPage.tsx:35-56 | every card field, from id and name to online flag, as the page derives it; chlorine from the sorted estimator |
| Watch.ChlorineAsWrittenOffGap | frontend/src/pages/WatchPage.tsx:41 | the card's chlorine equals the page's `calculatePPM` except on the 0.5–1 ppm gap, where the page shows 4.0 |
| Watch.ListedControllers | frontend/src/pages/WatchPage.tsx:18 | only controllers not marked "Desasociado" are kept, each from the input |
| Watch.ListedAppend | frontend/src/pages/WatchPage.tsx:17-18 | the filter distributes over concatenation, so it keeps the input's order and multiplicity |
| Watch.ListedOne | frontend/src/pages/WatchPage.tsx:18 | a single controller is kept exactly when it is not marked "Desasociado" |
| Watch.ListedControllersComplete | frontend/src/pages/WatchPage.tsx:18 | every controller not marked "Desasociado" is kept |
| Watch.MapControllers | frontend/src/pages/WatchPage.tsx:16-57 | one card per kept controller, in order |
| Watch.AllListedMapsOneToOne | frontend/src/pages/WatchPage.tsx:16-57 | when every controller is listed, every one gets a card |
| Watch.DistinctIds | frontend/src/pages/WatchPage.tsx:44 | controllers with different ids get cards with different ids |
| Watch.MissingFlowSensorMeansFlow | frontend/src/pages/WatchPage.tsx:35-36 | a controller without a "Flujo" sensor is shown as having flow |
| Watch.FirstSensorWins | frontend/src/pages/WatchPage.tsx:21 | with duplicate sensor names only the first is read |
| Sanitize.FieldListsShape | backend/main.py:83-95 | the sensor list removes Value and CtrlId; the controller list keeps CtrlId, the sensors column and every coded column |
| Sanitize.RemoveFields | backend/main.py:99-102 | deleting listed fields keeps exactly the unlisted keys, with their values |
| Sanitize.RelabelNumeric | backend/main.py:137-143 | `dict.get` matches by numeric value: a whole-number real gets the label of the equal integer code, and a real matching no code passes through |
| Sanitize.RelabelIdempotent | backend/main.py:137-143 | relabelling a value a second time changes nothing |
| Sanitize.RelabelAll | backend/main.py:137-143 | the assignments in sequence set each listed coded column to its label (or the original value) and change no other key |
| Sanitize.RelabelCodes | backend/main.py:128-143 | all seven coded columns are present afterwards, each set to its label or original value; other keys unchanged |
| Sanitize.RelabelCodesIdempotent | backend/main.py:128-143 | relabelling an already relabelled controller changes nothing |
| Sanitize.SanitizeSensor | backend/main.py:108-122 | a sensor loses its listed fields and gains Value, the latest reading or null |
| Sanitize.SanitizeSensors | backend/main.py:107-124 | one sanitised sensor per sensor, in order |
| Sanitize.StripController | backend/main.py:98-126 | a controller loses its listed fields and gains the sanitised sensor list |
| Sanitize.SanitizeController | backend/main.py:97-145 | the sanitised controller: listed fields gone, sensors attached, coded columns relabelled, everything else unchanged |
| Sanitize.StatusRelabel | backend/main.py:129 | codes 0, 1, 2 become "Desasociado", "Conectado", "Desconectado"; "Desasociado" comes only from 0, 0.0 or itself |
| Sanitize.StatusLabels | backend/main.py:137 | the controller's status after sanitising, including null when the column is missing |
| Sanitize.SanitizeUser | backend/main.py:175-183 | the user record loses exactly the listed fields |
| Sanitize.FindEmailColumn | backend/main.py:156-160 | the first column whose lower-cased name contains "mail", or a 500 error exactly when none does |
| Sanitize.EmailColumnCaseInsensitive | backend/main.py:157 | a column spelled "UserEMail" is still found |
| Text.ToLower | backend/main.py:157 | ASCII lower-casing keeps the length and maps each character |
| Text.IntToDecimalRoundTrip | frontend/src/pages/WatchPage.tsx:44 | `String(CtrlId)` parses back to the id |
| Sessions.ExtractToken | backend/main.py:226 | a header without the "Bearer " prefix is used as is; with it, the token is shorter than the header by at least the prefix |
| Sessions.BearerRemainderStripped | backend/main.py:226 | for every header "Bearer " + t, the token is t with every "Bearer " removed left to right |
| Sessions.BearerRoundTrip | backend/main.py:226 | a token with no "Bearer " in it (every URL-safe token) sent as "Bearer token" is extracted unchanged |
| Sessions.EveryOccurrenceRemoved | backend/main.py:226 | `replace` removes every "Bearer " in the header, not only the leading one |
| Sessions.OtherHeadersVerbatim | backend/main.py:226 | a header not starting with "Bearer " is kept verbatim, even when it contains it |
| Sessions.Authenticate | backend/main.py:223-235 | the check succeeds exactly for a known token; a missing header is refused without change; only an expired session is deleted |
| Sessions.ValidateSession | backend/main.py:248-270 | `/validate-session` answers with the session's email and user id exactly when the check succeeds |
| Sessions.RefreshUser | backend/main.py:221-237 | `/refresh-data` proceeds with the session's user id exactly when the check succeeds |
| Sessions.Logout | backend/main.py:272-282 | logout always succeeds, deletes the header's token when there is one, and keeps every other session |
| Sessions.LogoutIdempotent | backend/main.py:272-282 | logging out twice leaves the same store as logging out once |
| Sessions.LogoutRevokes | backend/main.py:272-282 | after logout the same header is refused as an invalid session |
| Sessions.Login | backend/main.py:202-208 | login stores the session under its token with a 24-hour lifetime and keeps every other session |
| Sessions.LoginThenValidate | backend/main.py:202-264 | a fresh session validates until 24 hours have passed, and is refused and forgotten after that |
| Sessions.RefusalOnlyForgetsExpired | backend/main.py:228-235 | a check never adds a session and removes one only when it reports expiry |

## Left out

- Database access, the SSH tunnel, the JSON dump to `user_data.json`,
  CORS and the FastAPI routing are left out. The model starts from the rows
  a query would return: a controller's sensors come paired with their
  latest value. The user lookup and the password check are left out too.
- Clock readings (`datetime.now()`) and generated tokens
  (`secrets.token_urlsafe`) are parameters of `Sessions`.
- Concurrent requests to the session store are not modelled.
- Sessions.Login: a token that collides with a stored one overwrites it.
  Such a collision cannot be excluded without modelling the randomness.
- Sessions.Login: lines 206-207 read `datetime.now()` twice, so the real
  lifetime is 24 hours plus the time between the two readings. The model
  takes both readings as one instant, so its exact 24-hour lifetime is an
  idealisation. Validation reads only the expiry, so nothing else depends
  on it.
- Sessions.ExtractToken: its contract only bounds the token's length in the
  "Bearer " case. BearerRemainderStripped states the content for every
  "Bearer " header in terms of the replace-all function. BearerRoundTrip
  states it for remainders without "Bearer ", which covers every URL-safe
  token. EveryOccurrenceRemoved and OtherHeadersVerbatim are two worked
  examples.
- `datetime` comparison is modelled on integer seconds.
- React rendering, styles, transitions and timers are left out.
  - The three-second toast timeout is the separate event `HideToast`.
  - The auto-rotate interval is the event `Tick`.
- localStorage and `JSON.parse` of the saved grid are left out; any grid
  can be the start value.
- The Fullscreen API and axios calls are left out. So is the watch page's
  polling and caching, and the other pages (authentication, routing).
- Floating point is modelled with exact reals. `toFixed(1)` is modelled
  as rounding half away from zero on the exact value, so binary-representation effects at
  ties are not reproduced: 1.15 is stored as 1.1499… and prints "1.1" where
  the model gives 1.2, and 0.35 prints "0.3" where the model gives 0.4. NaN and infinities are
  not modelled; the `!ph || !orp` guard is modelled as a test for zero.
- Sanitize.FindEmailColumn: `str.lower()` is modelled as ASCII
  lower-casing. Non-ASCII column names may differ.
- Sanitize.FindEmailColumn: the error carries status 500 and the message
  raised at backend/main.py:160. The handler at lines 217-219 catches that
  exception and re-raises a 500 whose detail is `str(e)` of it. That text is
  formatted by the web framework, which is not part of this model, so the
  detail actually sent may differ from the modelled message.
- Python dict order is not modelled. Dict keys match by numeric equality,
  which `Relabel` models for integers and for whole-number reals (floats and
  decimals). Booleans are not among the modelled values, so the equality of
  `True` and `1` as dict keys is not modelled.
- JSON records are keyed by the `Key` datatype. Named columns are separate
  constructors, and `Column(name)` stands for every other column. The model
  assumes a `Column` name never spells a named column.
- Sanitize.RelabelCodes: it applies all seven assignments of lines
  137-143. It is stated per column, not as the literal order of the
  assignments; the columns are distinct, so the order is immaterial.
- The lengths of the three field lists are not stated. Each list is a
  membership predicate over the named columns.
- Watch.ListedControllers: its own contract states membership only. Order
  and multiplicity are stated by ListedAppend and ListedOne, which together
  fix the result for every input. MapControllers is stated against this
  list, so the cards follow the same order.
- Watch.ToPool: it uses the corrected chlorine estimator (see Findings).
  ChlorineAsWrittenOffGap states where the page as written differs.

## Findings

| source | as written | input that shows it | evidently intended | confidence | as-written member | corrected member |
|---|---|---|---|---|---|---|
| frontend/src/utils/chlorineCalculator.ts:95-109 | the control points are scanned in `Object.entries` order: "1", "2", "3", "4", then "0.5". No pair covers the readings between the 0.5 and 1 ppm points, so they fall through to the 4.0 fallback | pH 7.0, ORP 700 mV gives 4.0, while 715 mV gives 1.0 | scan in ascending ppm order, so 700 mV interpolates to about 0.9 and the estimate rises with ORP | not executed | Chlorine.NotMonotoneInOrp | Chlorine.SortedMonotoneInOrp |
| frontend/src/components/GridConfig.tsx:72-73 | `startPool` is always page · perPage + 1, even when the page shows no pool | no pools at all: the counter reads "Mostrando 1-0 de 0 piscinas" | an empty range such as 0-0 when nothing is shown | not executed | GridConfig.EmptyCounterIsBackwards | GridConfig.ShownRangeMatchesPage |
