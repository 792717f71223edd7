# ELAN agent: verified model of access control, sessions, groups, RPC and calendar arithmetic

This project models the parts of the agent that hold real protocol, state or arithmetic, and proves what they are for.
To verify: `dafny verify dfyconfig.toml`.

**Access control** (`elan/nac/__init__.py`, `elan/nac/manager.py`, `bin/mac_authz_manager.py`). Any process may re-evaluate
a MAC: it rewrites a hash and a sorted set in Redis and publishes a change message; the manager later reads Redis and
brings its caches and the nft sets in line, and keeps one timer for the next expiry. `Authorization` has the store and the
published log, `Firewall` one nft set with its cache, `Enforcement` and `Coverage` what each operation of the manager does,
`Reevaluation` what they leave of each MAC, `NacProtocol` and `DisconnectRuns` the whole as a step system with its runs, and `Manager` the code as classes, proved
against those functions. Messages are bags: they may be delayed, delivered in any order and more than once. The answer of
the remote `device-authorization` service is an input, and may be an exception.

**Sessions** (`elan/session.py`, `bin/session_trackerd.py`). MAC, VLAN and IP sessions form a forest kept redundantly in
several Redis structures; `seen` and `end` drive it (from packet capture, and from RADIUS accounting at
`elan/freeradius/nac.py:251-257`), and every change is notified to a control center. `Sessions` has the operations as
functions, `SessionEffects` what they leave and publish, `ControlCenter` what the remote side can reconstruct, `SessionRuns` the runs, `SessionStore` the code as a class.
`Tracker`, `TrackerRuns` and `SessionTracker` are the expiry loop with its time bounds. `SessionFields` and
`CurrentSessions` are the field printer, the lazy parser, and resending the whole table.

**Authentication groups** (`elan/authentication.py`). `AuthGroups` is the compiler that flattens nested, possibly cyclic
groups; `GroupPolicy` what FreeRADIUS then does with the list, and the recursive code with its shared visited set.

**RPC** (`elan/neuron.py`). `Rpc` is the request/answer protocol over publish/subscribe as a step system, `Dendrite` the
client as a class.

**Calendar** (the bundled moment.js 2.8.1). `Calendar` counts days, months and years; `MonthDifference` is adding months with
the day clamped and the difference of two moments; `IsoWeeks` is ISO week dates (section 4.1.4 of ISO 8601:2004).

Where the source does not meet what one would expect of it, the exact condition is proved:

- An exception of the remote call inside `check_expired_authz` leaves the loop after the old timer was cancelled and before a
  new one is armed (`CheckCoversIff`, `FailedCheckLosesTimer`). Until a later check succeeds, expiries are covered only as far
  as change messages are pending (`CoveredIff`), and `NothingOpenBeyondExpiry` asks that the last check succeeded.
- The manager starts with empty caches but does not flush the nft sets, so what an earlier manager left there stays open. This
  is so for each MAC by itself (`StartUpSettles`, `FirewallFollowsStoreIff`, `LeftoverStaysOpen`).
- A MAC session that ends while the manager is down is not heard of, and a till-disconnect authorization outlives it
  (`DisconnectionIsPursuedIff`, `MissedEndIsNotPursued`).
- The tracker ends a silent session within 310 s only if sightings are not reported too late. Some are reported late: the
  packet time is passed at `bin/device_trackerd.py:62-66`, the trap time after an await at `elan/snmp.py:241-243`. Time order
  alone is not enough (`LateSightingBreaksBound`); the exact condition is `BoundHoldsIff`, with `BoundedMeansSilence`.
- `daysInMonth` gives its year to Date.UTC, which takes 0 to 99 for 1900 to 1999, so from a date after the 28th in one of these
  years adding months can go wrong, and a difference can have a negative remainder (`AddMonthsLandsIff`,
  `PositiveDifferenceIsGreatestIff`, `RemainderCanBeNegative`).
- The comment at `bin/session_trackerd.py:143` says that the wait can be 0; by the code it is always at least 1 (`WaitBounds`).

Assumptions, all visible as hypotheses or in the step relations: each operation is one atomic step; Redis pipelines are
transactions; a run of the access-control protocol starts with a start-up whose first expiry check succeeds (otherwise there
is no manager); request ids are new and contain no slash; for the expiry loop sightings arrive in time order, sleeps are exact
and checks take no time.

## Model

| member | source | states |
|---|---|---|
| `NacProtocol.FirewallFollowsStore` | elan/nac/manager.py:127-158 | in every state of every run, a MAC with no change message pending has the VLANs of its stored authorization open, and nothing else but what was left over in the nft sets at start-up; with nothing left over for this MAC, mac_on_vlan has exactly its allow_on VLANs and mac_to_vlan exactly its bridge_to VLANs, whatever was delayed, reordered or duplicated |
| `NacProtocol.FirewallFollowsStoreIff` | elan/nac/manager.py:33-39 | for each MAC by itself that condition is exact: pending or exactly as stored in all states of a run, if and only if nothing was left over for it |
| `NacProtocol.LeftoverStaysOpen` | elan/nac/manager.py:33-39 | the failing input: an element left over in an nft set is still open after start-up although nothing is stored |
| `NacProtocol.NothingOpenBeyondExpiry` | elan/nac/manager.py:134-171 | if no remote call failed during the last expiry check, a MAC with no message pending and no timer due has nothing open, beyond what was left over at start-up, but what an authorization that has not expired grants |
| `NacProtocol.CoveredIff` | elan/nac/manager.py:148-171 | in every state of every run every finite expiry has a pending change message or a timer armed no later, if and only if no remote call failed during the last expiry check or all of them have a message pending |
| `NacProtocol.AbortedIsLastCheck` | elan/nac/manager.py:148-158 | the recorded failure is that of the last expiry check only: a later check that succeeds makes up for it |
| `NacProtocol.EventsAlternate` | elan/nac/__init__.py:40-69 | in every state of every run the session events of a MAC alternate new, end, new, end; each end carries the id of the opening before it; no id opens twice; a MAC is stored exactly when its last event opened it, and that event has the stored id and terms; the expiry set has the same MACs with the matching expiry |
| `NacProtocol.EveryStateOk` | elan/nac/manager.py:11-177 | the invariant (store, log, firewall up to what was left over, timer, sessions) holds in every state of every run, whatever the nft sets held at start-up |
| `NacProtocol.StartIsOk` | elan/nac/manager.py:16-39 | start-up establishes it over any nft sets |
| `NacProtocol.RunsExtend` | elan/nac/manager.py:134-177 | every enabled step extends a run: the definition of a run excludes nothing |
| `NacProtocol.StepKeeps` | elan/nac/manager.py:127-177 | every step of the protocol keeps the invariant |
| `NacProtocol.CheckKeeps` | elan/nac/manager.py:148-171 | an expiry check keeps store, log and firewall in agreement; afterwards the timer is armed for the earliest finite expiry and covers all of them, or there is none if a remote call failed |
| `NacProtocol.CheckClearsOverdue` | elan/nac/manager.py:148-158 | a check that succeeds leaves nothing overdue except what the remote side granted again just now, with its change message pending, and touches no authorization that was not overdue |
| `NacProtocol.OnlineIff` | elan/session.py:34-43 | online are exactly the MACs with a live session that was not seen at the epoch itself |
| `Reevaluation.CheckAnswers` | elan/nac/manager.py:148-158 | after a check at `now` during which no remote call failed, exactly the MACs whose expiry has come are swept: what they had ended as expired; an online one is stored, opened and announced with the terms the remote side assigns, if it assigns any; otherwise nothing is left. Nothing else is touched or published |
| `Reevaluation.SweepAnswers` | elan/nac/manager.py:154-156 | the same for the loop, for the MACs it got to, failing calls included |
| `Reevaluation.RecheckAnswers` | elan/nac/manager.py:173-177 | every online MAC of a list that is reached before a remote call fails is re-evaluated, in effect once even if listed twice; every other MAC is left alone |
| `Authorization.CheckAuthzEvaluates` | elan/nac/__init__.py:40-69 | exactly what is stored and published for the MAC, from the answer: one change message, the end of the old authorization as overridden or expired, the opening of the new one; or nothing, if the store said the same already |
| `DisconnectRuns.DisconnectionIsPursued` | bin/mac_authz_manager.py:12-18 | if till-disconnect authorizations are granted to MACs that are online or whose disconnection is pending, and no MAC was abandoned before start-up, then in every run an offline MAC still holding one has an undelivered disconnection message |
| `DisconnectRuns.DisconnectionIsPursuedIff` | bin/mac_authz_manager.py:9-18 | both conditions together are exact, for every run: pursued in all states if and only if none was abandoned and every grant met its condition |
| `DisconnectRuns.StartPursuesIff` | bin/mac_authz_manager.py:9-18 | start-up pursues every offline MAC if and only if none was abandoned |
| `DisconnectRuns.MissedEndIsNotPursued` | bin/mac_authz_manager.py:9-18 | the failing input: a MAC was seen, its session ended while the manager was down, and after start-up its unlimited till-disconnect authorization has no disconnection message on its way |
| `DisconnectRuns.SweepDropsOffline` | elan/nac/manager.py:154-156 | an expired authorization of an offline MAC is gone after the check |
| `DisconnectRuns.AuthenticationsEndIff` | elan/session.py:354-360 | in all states of a run no till-disconnect authentication is left for an offline MAC, if and only if none was at start-up and they are always added to online MACs |
| `DisconnectRuns.GrantKeepsPursuedIff` | elan/nac/__init__.py:52-61 | that assumption is exact: one grant keeps the property if and only if the MAC is online or its disconnection is pending, or the grant is not till-disconnect |
| `DisconnectRuns.StepKeepsPursued` | elan/nac/manager.py:139-146 | every step keeps the pursuit of offline MACs, if a grant it makes meets its condition |
| `DisconnectRuns.SessionKeepsPursued` | elan/session.py:293-300 | a session step that takes a MAC offline publishes the end that pursues it |
| `DisconnectRuns.EndedMacsIff` | bin/mac_authz_manager.py:12-15 | the disconnections are exactly the MAC session ends among the messages |
| `DisconnectRuns.SweepGainsOnline` | elan/nac/manager.py:173-177 | an expiry check grants nothing to a MAC that is offline |
| `Coverage.CheckCoversIff` | elan/nac/manager.py:148-171 | a check leaves every finite expiry covered if and only if none of its remote calls fails, or every MAC it did not get to has a change message pending |
| `Coverage.FailedCheckLosesTimer` | elan/nac/manager.py:148-158 | one authorization has run out and the remote call for it fails; another one that ends later is left without any timer |
| `Coverage.SweepOutcome` | elan/nac/manager.py:152-156 | a MAC the loop got to is gone or freshly announced; every other MAC keeps its authorization, expiry and messages |
| `Coverage.SweepCompletes` | elan/nac/manager.py:173-177 | the loop runs to its end exactly when no remote call it makes fails |
| `Coverage.StartUpSettles` | elan/nac/manager.py:16-39 | whatever the nft sets held, start-up ends in a good state up to what was left over, a MAC has exactly its stored VLANs open if and only if nothing was left over for it, and the timer is armed if no remote call failed |
| `Coverage.FilledSettlesIff` | elan/nac/manager.py:33-39 | the same for `init_macs` alone: the sets are not flushed, so it is exact exactly where nothing else was there |
| `Coverage.InitialisedIsUnion` | elan/nac/manager.py:33-39 | `init_macs` adds exactly what is stored to what the sets held, and caches exactly what is stored |
| `Enforcement.RecheckOk` | elan/nac/__init__.py:40-69 | re-evaluating a MAC from any process keeps store, log and firewall in agreement: what it changes is announced |
| `Enforcement.RefreshOk` | elan/nac/manager.py:127-132 | applying Redis settles the MAC and disturbs no other |
| `Enforcement.DropLocal` | elan/nac/manager.py:41-49 | removing an authorization closes both sets for its MAC, up to what was left over, and disturbs no other |
| `Enforcement.DropOk` | elan/nac/manager.py:41-49 | and keeps store, log and firewall in agreement |
| `Enforcement.SweepOk` | elan/nac/manager.py:152-156 | so does the loop over expired MACs, finished or left by an exception |
| `Enforcement.ChangeHandledOk` | elan/nac/manager.py:134-135 | a change message may be consumed once Redis has been applied for its MAC |
| `Enforcement.DisconnectedOk` | elan/nac/manager.py:139-143 | a disconnection keeps store, log and firewall in agreement |
| `Enforcement.DisconnectedOutcome` | elan/nac/manager.py:139-143 | a disconnection costs the MAC its till-disconnect authorization, which ends as disconnected, and closes the firewall for it; any other authorization and every other MAC stay |
| `Enforcement.RecheckedOk` | elan/nac/manager.py:173-177 | a list of re-evaluations keeps the agreement |
| `Enforcement.Earliest` | elan/nac/manager.py:160-171 | the time to arm is the smallest finite expiry, and none exactly when every authorization is unlimited |
| `Authorization.CheckAuthzOutcome` | elan/nac/__init__.py:40-69 | afterwards the store says what the remote answer says; nothing is touched or published exactly when it did already; a new authorization gets an id never used, and ends carry the right reason |
| `Authorization.CheckAuthzIsIdempotent` | elan/nac/__init__.py:55-68 | asking again with the same answer changes and publishes nothing |
| `Authorization.CheckAuthzOk` | elan/nac/__init__.py:40-69 | hash and expiry set stay in step and the published log stays acceptable |
| `Authorization.CheckAuthzLocal` | elan/nac/__init__.py:40-69 | no other MAC is touched, and whatever changes is announced |
| `Authorization.SavedOk` | elan/nac/__init__.py:165-178 | saving writes both structures consistently under a new id |
| `Authorization.RemovedOk` | elan/nac/__init__.py:188-198 | deleting removes from both structures and closes the open id |
| `Authorization.AcceptedAlternates` | elan/nac/__init__.py:114-134 | an accepted log alternates for every MAC, and a MAC is open exactly when its last event opened it |
| `Authorization.AcceptedIdsAreFresh` | elan/nac/__init__.py:165-167 | in an accepted log no id opens twice, for the same or for different MACs |
| `Firewall.ReconciledIsExact` | elan/nac/manager.py:104-109 | the cache stays in step without empty entries, the MAC gets the wanted VLANs and keeps at most what was left over, other MACs are untouched |
| `Firewall.AllowedIsExact` | elan/nac/manager.py:85-118 | the same for both sets together |
| `Firewall.CommandCount` | elan/nac/manager.py:104-116 | a strict execution (no delete of an absent, no add of a present element) from the cached to the wanted VLANs has exactly as many commands as the symmetric difference |
| `Firewall.ReconciledIsExactIff` | elan/nac/manager.py:104-109 | the result is exact if and only if the set held nothing for the MAC that was neither cached nor wanted |
| `Firewall.VlanTable.CacheDelete` | elan/nac/manager.py:54-59 | the VLAN leaves the cached set, and the entry goes with the last one |
| `Firewall.VlanTable.CacheAdd` | elan/nac/manager.py:61-66 | the VLAN joins the cached set |
| `Firewall.VlanTable.Close` | elan/nac/manager.py:104-106 | one closing keeps cache and nft set in step and deletes a present element |
| `Firewall.VlanTable.Open` | elan/nac/manager.py:107-109 | one opening keeps the cache in step and adds the element |
| `Firewall.VlanTable.CloseUnwanted` | elan/nac/manager.py:104-106 | the closing loop leaves the cached VLANs that are wanted, and deletes present elements only |
| `Firewall.VlanTable.OpenMissing` | elan/nac/manager.py:107-109 | the opening loop reaches the wanted VLANs; it adds absent elements only, exactly when none of the missing ones was left over |
| `Firewall.VlanTable.Reconcile` | elan/nac/manager.py:104-116 | one half of `fw_allow_mac`: as many commands as the symmetric difference; none deletes an absent or adds a present element, exactly when nothing to be opened was left over |
| `Manager.Backend.Delete` | elan/nac/__init__.py:188-198 | removes from both structures and publishes the end with the stored id |
| `Manager.Backend.Save` | elan/nac/__init__.py:165-178 | writes both structures under the next id |
| `Manager.Backend.Check` | elan/nac/__init__.py:40-69 | `checkAuthz` is the function whose outcome is proved above, and returns the authorization in force |
| `Manager.MacAuthorizationManager.constructor` | elan/nac/manager.py:16-27 | empty caches and no timer, over any nft sets |
| `Manager.MacAuthorizationManager.FwAllowMac` | elan/nac/manager.py:85-118 | both sets become the requested ones, caches in step |
| `Manager.MacAuthorizationManager.AuthzChanged` | elan/nac/manager.py:127-132 | Redis decides what is open |
| `Manager.MacAuthorizationManager.RemoveAuthz` | elan/nac/manager.py:41-49 | Redis loses the authorization, the firewall closes |
| `Manager.MacAuthorizationManager.ExpiredMacs` | elan/nac/manager.py:153-154 | exactly the MACs with an expiry up to now, once each |
| `Manager.MacAuthorizationManager.Sweep` | elan/nac/manager.py:152-156 | the loop is the specified sweep, and is left early exactly when a remote call raises |
| `Manager.MacAuthorizationManager.CheckAuthz` | elan/nac/manager.py:173-177 | every online MAC of the list that is reached is re-evaluated with its answer, and nothing else changes; it is left early exactly when a remote call raises |
| `Manager.MacAuthorizationManager.Schedule` | elan/nac/manager.py:160-171 | the timer is armed for the earliest finite expiry, if there is one |
| `Manager.MacAuthorizationManager.CheckExpiredAuthz` | elan/nac/manager.py:148-158 | cancel, sweep, and arm again unless the sweep raised; if it did not, exactly the MACs whose expiry has come lose what they had and are granted anew what the remote side assigns to them while online |
| `Manager.MacAuthorizationManager.HandleAuthzChanged` | elan/nac/manager.py:134-137 | the change handler is the protocol step |
| `Manager.MacAuthorizationManager.HandleDisconnection` | elan/nac/manager.py:139-146 | the disconnection handler is the protocol step |
| `Manager.MacAuthorizationManager.InitMacs` | elan/nac/manager.py:33-39 | every stored authorization is applied |
| `Manager.StartUp` | bin/mac_authz_manager.py:9-19 | start-up is the specified one over any nft sets and fails exactly when a remote call does; otherwise the state is good with the timer armed, and a MAC has exactly its stored VLANs open if and only if nothing was left over for it |
| `SessionRuns.EveryRunIsGood` | elan/session.py:112-300 | in every state of every run of `seen`, `end` and the authentication operations: the session forest holds across the five structures, ports and MACs point at each other, ids are positive, and the published messages alone rebuild the ids and the ports exactly, none contradicting the earlier ones |
| `SessionRuns.NextKeepsGood` | elan/session.py:112-375 | every operation keeps all of it |
| `SessionRuns.EveryListRuns` | elan/session.py:112-375 | every list of operations makes a run: the definition of a run excludes nothing |
| `Sessions.EndedKeepsForest` | elan/session.py:236-300 | `end` keeps the forest, and both tables lose exactly the session and its descendants |
| `Sessions.CutLosesSubtree` | elan/session.py:249-279 | following the index sets finds exactly the live descendants |
| `Sessions.EndedRest` | elan/session.py:281-300 | only the end of a live MAC session touches ports and authentications, and exactly one message is published, for a live session |
| `SessionEffects.EndedAuths` | elan/session.py:354-360 | exactly the till-disconnect authentications of a MAC whose session ends are lost |
| `SessionEffects.EndedPortIndexes` | elan/session.py:294-298 | exactly the MAC whose session ends loses its port and is taken off the MAC set of that port; the last port stays known |
| `SessionEffects.EndedIpSets` | elan/session.py:256-269 | ending a MAC deletes the IP sets of its live VLANs, ending a VLAN its own, ending an IP none |
| `SessionEffects.EndedMessages` | elan/session.py:281-300 | a live session that ends is reported once, with its id, those of its parents and the given time |
| `Sessions.SeenKeepsForest` | elan/session.py:112-217 | `seen` keeps the forest |
| `Sessions.TouchKeys` | elan/session.py:158-193 | known sessions keep their id, new ones share the next one |
| `Sessions.EndedStaysMirrored` | elan/session.py:281-300 | replaying the messages still gives the session-id table after `end`: one message stands for the whole subtree |
| `Sessions.SeenStaysMirrored` | elan/session.py:158-217 | and after `seen`: announcing only the most specific new session loses nothing |
| `Sessions.NewNotesMirror` | elan/session.py:210-215 | the one announcement with the ids of its parents makes the new table out of the old one |
| `ControlCenter.SeenMirrorsPorts` | elan/session.py:201-215 | replaying the messages gives the recorded ports after `seen` |
| `ControlCenter.EndedMirrorsPorts` | elan/session.py:293-300 | and after `end` |
| `ControlCenter.SeenIsCoherent` | elan/session.py:177-215 | no message of `seen` announces a known session or contradicts a known id |
| `ControlCenter.EndedIsCoherent` | elan/session.py:281-300 | an end names a known session with its id and those of its parents |
| `SessionRuns.SeenTables` | elan/session.py:158-193 | exactly the surviving and the touched sessions are there; survivors keep their id, new ones get the next of the sequence |
| `SessionRuns.SeenTimes` | elan/session.py:158-167 | exactly the touched sessions get the time of the sighting |
| `SessionRuns.SeenPort` | elan/session.py:122-156 | after a sighting with a port the MAC is recorded on a port that agrees with all it knew; other MACs keep theirs |
| `SessionEffects.ChangedIff` | elan/session.py:125-149 | a change of port means that no port agrees with all that is known of both |
| `SessionEffects.SeenPortIs` | elan/session.py:122-156 | a first or another port is recorded as reported; for the same port all that is known of either is recorded and nothing invented |
| `SessionEffects.SeenPortMacs` | elan/session.py:201-206 | exactly how the MAC sets of ports change |
| `SessionEffects.SeenLastPort` | elan/session.py:201-203 | the last known port follows the recorded one |
| `SessionEffects.SeenAuths` | elan/session.py:150-150 | `seen` loses no authentication but the till-disconnect ones of a MAC that leaves its port |
| `SessionEffects.SeenIpSets` | elan/session.py:158-166 | exactly how the IP sets change |
| `SessionEffects.SeenSequence` | elan/session.py:177-178 | one number of the sequence is taken if any session is new |
| `SessionEffects.SeenMessages` | elan/session.py:201-215 | exactly the messages of a sighting: the end at a change of port, the port if it is new for a known MAC, and the most specific new session |
| `SessionEffects.FlagsAre` | elan/session.py:169-175 | the three flags say which of the touched sessions did not exist or did not survive |
| `SessionRuns.SeenKeepsPorts` | elan/session.py:201-206 | `seen` keeps ports and MAC sets pointing at each other |
| `SessionRuns.EndedKeepsPorts` | elan/session.py:293-298 | so does `end` |
| `SessionRuns.SeenKeepsIds` | elan/session.py:177-193 | ids stay positive and below the sequence, so testing them for truth tests for existence |
| `SessionRuns.OneKnownPort` | elan/session.py:201-206 | a MAC is listed on at most one port with a known interface, which is its recorded port, and is online |
| `SessionRuns.PortKnowledgeIsKept` | elan/session.py:151-156 | from any state of any run to any later one, a known device, interface or SSID is kept, or the end of the MAC session was published in between |
| `SessionRuns.EndsArePublished` | elan/session.py:293-300 | a MAC session never ends silently |
| `SessionRuns.EndedKeepsAuths` | elan/session.py:354-360 | no till-disconnect authentication survives the end of its MAC session |
| `SessionRuns.NextKeepsAuthsIff` | elan/session.py:303-375 | an operation keeps it that only online MACs hold till-disconnect authentications, if and only if it adds none to an offline MAC |
| `SessionRuns.EveryRunEndsAuthsIff` | elan/session.py:303-375 | in all states of a run only online MACs hold them, if and only if they are always added to online MACs |
| `SessionStore.Store.ListVlan` | elan/session.py:262-277 | the sessions listed for the end of a VLAN |
| `SessionStore.Store.ListMac` | elan/session.py:253-277 | the sessions listed for the end of a MAC, over all its VLANs |
| `SessionStore.Store.DropIndexes` | elan/session.py:257-269 | the index sets lose exactly the VLANs that end, with their IP sets |
| `SessionStore.Store.CutSession` | elan/session.py:249-279 | the pipeline of `end` on all structures |
| `SessionStore.Store.CloseMac` | elan/session.py:294-299 | port and till-disconnect authentications of an ended MAC |
| `SessionRuns.AuthAddedOutcome` | elan/session.py:303-322 | after adding an authentication the MAC holds the new one, with the documented default for till-disconnect, and no other that has expired; nothing else is lost or gained |
| `SessionEffects.AuthsLeft` | elan/session.py:346-375 | exactly which authentications are left after removing by source and after expiring |
| `SessionStore.Store.DropAuths` | elan/session.py:354-360 | the removal loops drop exactly the matching authentications of the MAC |
| `SessionStore.Store.ExpireAuths` | elan/session.py:363-375 | authentications with an end date up to the given one go |
| `SessionStore.Store.RemoveAuths` | elan/session.py:346-351 | authentications of the source go |
| `SessionStore.Store.AddAuth` | elan/session.py:303-322 | expired ones go, then the new one is added with its default |
| `SessionStore.Store.EndKey` | elan/session.py:236-300 | `end` is the specified function, and keeps the forest |
| `SessionStore.Store.EndSession` | elan/session.py:236-250 | which session the arguments name; an IP without VLAN is refused and changes nothing |
| `SessionStore.Store.StampAll` | elan/session.py:158-175 | the first pipeline of `seen`, and which members were new |
| `SessionStore.Store.TouchAll` | elan/session.py:158-195 | both pipelines of `seen` |
| `SessionStore.Store.Announce` | elan/session.py:201-217 | the messages of `seen` and the three flags |
| `SessionStore.Store.ResolvePort` | elan/session.py:122-156 | whether the MAC moved, the port to record, and whether it differs from the recorded one |
| `SessionStore.Store.See` | elan/session.py:112-217 | `seen` is the specified function, keeps the forest, and its flags say which touched sessions were new |
| `TrackerRuns.SilentSessionsEndInTime` | bin/session_trackerd.py:83-146 | in every state of every timed run whose sightings were in time, every open session was last seen less than 310 s ago |
| `TrackerRuns.BoundHoldsIff` | bin/session_trackerd.py:83-146 | and only then is no session headed for 310 s of silence: the bound at the next check holds in all states of a run, if and only if every sighting is in time |
| `TrackerRuns.BoundedMeansSilence` | bin/session_trackerd.py:83-146 | what the bound means after any run: it holds if and only if no session becomes silent for 310 s while nothing but time passes up to the next check |
| `TrackerRuns.LateSightingIsTooSilent` | bin/session_trackerd.py:83-146 | after any run that kept the bound, a sighting that is not in time and then the passing of time give a run with a session silent for 310 s or more |
| `TrackerRuns.SightKeepsBoundIff` | bin/session_trackerd.py:134-146 | a sighting keeps the bound if and only if the next check is less than 310 s after the latest sighting, or it is less than 70 s older than the last check |
| `TrackerRuns.LateSightingBreaksBound` | bin/session_trackerd.py:134-146 | a sighting reported 100 s late after a check that left nothing makes a session 340 s old at the next check |
| `TrackerRuns.RunsExtend` | bin/session_trackerd.py:83-88 | every enabled step extends a run: the definition of a run excludes nothing |
| `TrackerRuns.ChecksArePatient` | bin/session_trackerd.py:83-125 | in every run, however late the sightings, a check keeps a session if and only if it was seen less than 300 s ago, and the next check is at least 1 s away |
| `TrackerRuns.RunsAreOk` | bin/session_trackerd.py:83-88 | the timing invariant holds in every state of every run |
| `TrackerRuns.CheckedOk` | bin/session_trackerd.py:83-146 | a check re-establishes the bound for every session it leaves |
| `TrackerRuns.TickKeeps` | bin/session_trackerd.py:83-88 | sightings, other ends, passing time and checks keep the timing invariant |
| `Tracker.CheckOutcome` | bin/session_trackerd.py:90-125 | a check leaves exactly the sessions newer than the cutoff, untouched, and publishes exactly one end per expired session without an expired ancestor |
| `Tracker.EndedAllLeaves` | bin/session_trackerd.py:115-125 | ending a list leaves exactly the sessions under none of it |
| `Tracker.EndedAllNotes` | bin/session_trackerd.py:115-125 | ending sessions of which none is under another publishes one end each, in order |
| `Tracker.EndNotesAre` | bin/session_trackerd.py:115-125 | every end of a check carries the ids and the time the session was last seen, truncated to a whole second for an IP |
| `Tracker.SeenKeepsOrder` | elan/session.py:158-166 | with sightings in time order, last-seen of IP, VLAN and MAC stay ordered |
| `Tracker.WaitBounds` | bin/session_trackerd.py:134-146 | the tracker sleeps 240 s without objects, 10 s when one is due, and otherwise wakes within 1 s after the first becomes due; always at least 1 s |
| `SessionTracker.ExpiredObjects` | bin/session_trackerd.py:91-93 | exactly the sessions not seen after the cutoff, once each |
| `SessionTracker.Partition` | bin/session_trackerd.py:104-113 | the expired objects by level |
| `SessionTracker.Daemon.EndEach` | bin/session_trackerd.py:115-125 | each ending loop ends exactly the spared objects of its level |
| `SessionTracker.Daemon.CheckSessions` | bin/session_trackerd.py:90-125 | the three loops end exactly the expired sessions without an expired ancestor, once each |
| `SessionTracker.Daemon.SecondsBeforeNextCheck` | bin/session_trackerd.py:134-146 | the wait computed from the oldest entry, at least 1 s |
| `SessionTracker.Daemon.Turn` | bin/session_trackerd.py:83-88 | one turn of the loop is one check of the timed model |
| `CurrentSessions.NotifyStore` | elan/session.py:53-95 | on the store of any run: one message per leaf of the forest, the count is the number of leaves, and the messages alone rebuild all ids and all ports |
| `CurrentSessions.NotifyCurrentSessions` | elan/session.py:53-95 | the same for any hash that encodes a table with all parents; no lookup of a parent id fails |
| `CurrentSessions.Resend` | elan/session.py:58-95 | the same once the hash is read |
| `CurrentSessions.SendLevel` | elan/session.py:71-79 | one sending loop announces its whole level and discards the ancestors |
| `CurrentSessions.SendAll` | elan/session.py:71-93 | the three loops announce exactly what has nothing below it |
| `CurrentSessions.Levels` | elan/session.py:63-69 | the sessions by level |
| `CurrentSessions.CurrentIds` | elan/session.py:46-50 | reading the hash back gives the table |
| `CurrentSessions.ReadField` | elan/session.py:230-233 | a field is read back as the one session printed to it |
| `CurrentSessions.ReplayNew` | elan/session.py:71-93 | announcements make known exactly their targets and all ancestors |
| `CurrentSessions.ReplayNewPorts` | elan/session.py:71-92 | and exactly the ports of their MACs |
| `CurrentSessions.LeavesRebuild` | elan/session.py:71-93 | the leaves with their ancestors are the whole table |
| `CurrentSessions.HashEncodes` | elan/session.py:220-227 | well-named sessions never share a field of the hash |
| `SessionFields.ParsePrint` | elan/session.py:220-233 | the lazy parser undoes the printer for non-empty names without newline, MACs without ",vlan=" and VLANs without ",ip=" |
| `SessionFields.PrintParse` | elan/session.py:230-233 | and whatever the parser accepts without a newline, printing gives back |
| `SessionFields.FieldsAre` | elan/session.py:220-227 | the format of the fields |
| `AuthGroups.CompilesReachable` | elan/authentication.py:127-173 | for every configuration, cyclic or with undeclared members: exactly the non-group ids reachable from the group are rendered, each once |
| `AuthGroups.CompileFlattens` | elan/authentication.py:127-173 | with a shared visited set, a call renders the first occurrences, in order, of what the expansion with repeats contains and was not visited |
| `AuthGroups.Compile` | elan/authentication.py:127-173 | terminates on every configuration, and only adds to the visited set |
| `GroupPolicy.PolicyIsExpansion` | elan/authentication.py:127-173 | the compiled list gives the verdict (accepting provider, all failed, priority, failed providers) of trying every occurrence, for consistent providers, cyclic groups included |
| `GroupPolicy.AcyclicPolicy` | elan/authentication.py:127-173 | for acyclic groups the list is the first occurrences of the plain full expansion and gives its verdict |
| `GroupPolicy.GroupVerdict` | elan/authentication.py:86-171 | the group accepts if and only if a reachable provider answers ok or updated; otherwise its priority is 4, 3, 2, 1 for the highest of notfound, reject, fail, invalid that a reachable one answers, and it reports all failed if and only if every reachable one answers fail or invalid |
| `GroupPolicy.TryDescribes` | elan/authentication.py:86-171 | what a verdict says, code by code: the first provider that answers ok or updated, or none and the highest priority met; the failed ones are those tried that answer fail |
| `GroupPolicy.RepeatsDoNotMatter` | elan/authentication.py:131-133 | trying a provider again that answers as before changes nothing |
| `GroupPolicy.MembersCase` | elan/authentication.py:142-147 | the loop over the members, with the shared set |
| `GroupPolicy.GetGroupInnerCase` | elan/authentication.py:127-173 | the recursion with the shared mutable set is the specified walk |
| `GroupPolicy.GroupCase` | elan/authentication.py:396-409 | what is rendered for a group is the compiled list: exactly the reachable providers, once each, each with the template of its declared type, external if undeclared |
| `GroupPolicy.RenderedKinds` | elan/authentication.py:139-154 | every provider is rendered with the template of its declared type, external if undeclared |
| `MonthDifference.PositiveDifferenceIsGreatestIff` | captive_portal/static/captive-portal/js/moment-2.8.1.js:502-514 | for every base not after other, adding months and remainder back lands on other; the months are the greatest number that fits (day clamped) and the remainder is not negative, so that the one decrement suffices, if and only if the result does not overshoot |
| `MonthDifference.SoundNeverOvershoots` | captive_portal/static/captive-portal/js/moment-2.8.1.js:502-514 | it never does outside the years 0 to 99, nor up to the 28th of a month |
| `MonthDifference.RemainderCanBeNegative` | captive_portal/static/captive-portal/js/moment-2.8.1.js:502-514 | it does from noon of 31 December 99 to midnight of 1 March 100: two months minus twelve hours |
| `MonthDifference.DifferenceIsSignedIff` | captive_portal/static/captive-portal/js/moment-2.8.1.js:516-528 | for all moments, adding months and remainder back to the earlier one gives the later one, swapping negates both parts and both are zero only for equal moments; the parts have the sign of the difference if and only if it does not overshoot |
| `MonthDifference.AddMonthsLandsIff` | captive_portal/static/captive-portal/js/moment-2.8.1.js:547-561 | adding months lands in the right month, on the same or the last date, with the same time of day, if and only if the length of the target month is not misread |
| `MonthDifference.ClampedLandsIff` | captive_portal/static/captive-portal/js/moment-2.8.1.js:2461-2477 | the same for the setter of the month |
| `MonthDifference.AddMonthsPlace` | captive_portal/static/captive-portal/js/moment-2.8.1.js:547-561 | where adding months lands for every moment: in the right month, or on the first day of the next one exactly when it overflows |
| `MonthDifference.AddMonthsIsMonotone` | captive_portal/static/captive-portal/js/moment-2.8.1.js:547-561 | more months are later, for every moment |
| `MonthDifference.DaysInMonthIsLength` | captive_portal/static/captive-portal/js/moment-2.8.1.js:674-676 | `daysInMonth` is the length of the month in the year Date.UTC reads, which is 1900 years later for 0 to 99 |
| `MonthDifference.DaysInMonthTable` | captive_portal/static/captive-portal/js/moment-2.8.1.js:674-676 | in any other year: 30 for April, June, September and November, 29 or 28 for February, 31 otherwise |
| `MonthDifference.TwoDigitYearsAreMisread` | captive_portal/static/captive-portal/js/moment-2.8.1.js:674-676 | a concrete year below 100 whose February is given the wrong length |
| `MonthDifference.Moment.SetMonth` | captive_portal/static/captive-portal/js/moment-2.8.1.js:2461-2477 | the month is set in place, date clamped, time of day kept |
| `MonthDifference.Moment.Add` | captive_portal/static/captive-portal/js/moment-2.8.1.js:559-561 | months are added in place |
| `MonthDifference.PositiveMomentsDifference` | captive_portal/static/captive-portal/js/moment-2.8.1.js:502-514 | the code on cloned moments computes the specified difference and changes neither moment |
| `IsoWeeks.IsoRoundTrip` | captive_portal/static/captive-portal/js/moment-2.8.1.js:1662-1696 | week-year, week and weekday of any day, fed to `dayOfYearFromWeeks`, denote that day; the week is one of 1 to 53 |
| `IsoWeeks.FromIsoRoundTrip` | captive_portal/static/captive-portal/js/moment-2.8.1.js:1684-1696 | conversely, a day made from a valid week-year, week and weekday has these fields |
| `IsoWeeks.WeeksInYearIsLargest` | captive_portal/static/captive-portal/js/moment-2.8.1.js:678-680 | `isoWeeksInYear` is the largest week occurring in that week-year, and it does occur |
| `IsoWeeks.WeekOfThursday` | captive_portal/static/captive-portal/js/moment-2.8.1.js:1662-1681 | the adjusted day is the Thursday of the week, which decides week and week-year |
| `IsoWeeks.WeekdaysFollow` | captive_portal/static/captive-portal/js/moment-2.8.1.js:2403-2408 | weekdays follow each other from Thursday, 1 January 1970; Sunday is 7 |
| `IsoWeeks.FromIsoCounts` | captive_portal/static/captive-portal/js/moment-2.8.1.js:1684-1696 | `dayOfYearFromWeeks` counts weeks from the first Thursday, also across the start of the year |
| `Calendar.ClosedForm` | captive_portal/static/captive-portal/js/moment-2.8.1.js:682-688 | adding up year lengths agrees with DayFromYear of ECMAScript |
| `Calendar.JanuaryStartsYear` | captive_portal/static/captive-portal/js/moment-2.8.1.js:674-688 | adding up month lengths agrees with adding up year lengths |
| `Calendar.MonthTable` | captive_portal/static/captive-portal/js/moment-2.8.1.js:674-688 | where every month of a year starts, with the leap day at the end of February |
| `Rpc.CallsGetTheirOwnAnswer` | elan/neuron.py:80-294 | in every interleaving, with messages delayed, reordered or duplicated: a call that returns gives a value a callback returned for that very request; an error is a well-formed RequestError with what the callback raised for it (its errors with its text, or their string if it gave none, or the repr of another exception); nothing else but a timeout comes out |
| `Rpc.TopicsAreRestored` | elan/neuron.py:202-213 | when no call is waiting, exactly the topics subscribed to otherwise are subscribed |
| `Rpc.RunsAreOk` | elan/neuron.py:186-294 | the correlation invariant holds in every state of every run |
| `Rpc.StepKeeps` | elan/neuron.py:186-294 | every step keeps it |
| `Rpc.MessageIsForCall` | elan/neuron.py:277-285 | a message on the answer topic of a waiting call answers that call |
| `Rpc.DecodeAnswer` | elan/neuron.py:186-198 | decoding the encoded outcome of a callback gives its value, its errors with the given text or else their string, or the repr of another exception |
| `Rpc.DecodeRaises` | elan/neuron.py:291-294 | an answer with either error field raises, with the defaults for a missing one; otherwise its result is returned |
| `Rpc.FalseValues` | elan/neuron.py:85-86 | the errors that count as none |
| `Rpc.TopicsAre` | elan/neuron.py:116-117 | the patterns of the topics |
| `Rpc.ServiceRoundTrip` | elan/neuron.py:189-192 | the service is read back from its request topic |
| `Rpc.ServiceOfIsInverse` | elan/neuron.py:189-189 | a service is read off its own topic only, up to a newline at the end |
| `Rpc.AnswerTopicIsInjective` | elan/neuron.py:116-117 | an answer topic determines service and request id |
| `Dendrite.Client.Provide` | elan/neuron.py:231-236 | providing a service is the step of subscribing to a topic that no answer ever uses and from which the service is read back |
| `Dendrite.Client.OnRequest` | elan/neuron.py:186-200 | handling a request is the step of serving it: exactly one answer goes to the topic of the request id, with the result, the errors and their text or string, or the repr |
| `Dendrite.Client.StartCall` | elan/neuron.py:274-283 | the first half of `call` is the step that begins it: one subscription, one request |
| `Dendrite.Client.FinishCall` | elan/neuron.py:284-294 | the second half is the step that receives an answer or gives up, with the result of that step |
| `Dendrite.NewTopicIsFree` | elan/neuron.py:274-280 | the answer topic of a new request is not subscribed to |
| `Dendrite.Client.Call` | elan/neuron.py:268-294 | whatever other calls of the client do during the wait, a call gives what a callback did with this very request, or times out, and leaves exactly the other subscriptions |

## Left out

- Finer interleavings than whole operations: unlocked access to the caches from several callback threads, or messages between the constructor and the subscription.
- The content of the remote `device-authorization` decision and the request sent to it (`get_network_assignments`): an arbitrary answer is an input.
- `getAuthz`, `newAuthz` and `vlan_has_access_control`: short compositions of what is modelled, or configuration lookups.
- Redis and MQTT internals, JSON encoding, reconnection, and the text of the nft commands.
- Sessions.EndedKeepsForest: of the IP set of a VLAN only that it contains the live IPs, because ending one IP leaves it in that set.
- SessionRuns.OneKnownPort: says nothing of ports with an unknown interface, whose MAC sets may keep stale members.
- A port dictionary always has the keys `local_id` and `interface`, as the source itself relies on; an interface named "None" sharing the Redis key of an unknown one is not modelled.
- The start time carried by new-session messages and date formatting.
- `get_authentication_sessions` and `source_in_authentication_sessions`: filters over the set of authentications.
- Times are real numbers: rounding of floating point is not modelled.
- What other threads of a client do while `call` waits is an input of the model, tied to a state of the protocol.
- Pings and packets of `bin/session_trackerd.py`: they only cause sightings, which may happen at any time here.
- TrackerRuns.SilentSessionsEndInTime: assumes exact sleeps and instantaneous checks.
- FreeRADIUS return codes other than the six in the tables of `elan/authentication.py`, the text of the templates, and the rest of `apply_conf`.
- Providers that answer differently when tried twice: GroupPolicy.PolicyIsExpansion is about consistent ones.
- Local time zones, daylight saving, parsing and locales of moment.js, and the setters of the ISO accessors.
- `Dendrite.get`, `get_conf`, retained messages, and the wildcard meaning of `+` and `#` in topics.
- The text of `str(errors)` and `repr(e)`: parameters, assumed not to be empty.
- `find_port`, SNMP, reverse DNS, the redirector, the access-control configurator, views, templates, pollers and packaging.
