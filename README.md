# Discourse moderation and timer decision rules, in Dafny

This project models three small pieces of the Discourse forum that are decision
rules or local state updates, and proves what they promise:

- **The topic-timer edit modal** (`edit_topic_timer.dfy`, module `EditTopicTimer`).
  It builds the menu of timer kinds a topic offers from the topic's flags. It
  checks the time or duration before sending an update. It folds "close after
  last post" into "close". It updates the local timer object once the server
  answers. The timer object and the modal are classes whose fields the methods
  assign. The server call `TopicTimer.update` is a parameter: a failure, or the
  stored timer. A `requests` log records what each call would have sent.
- **The chat index redirect** (`chat_index.dfy`, module `ChatIndex`). A pure
  decision from the preferred index page, the site settings and what the user
  can see, to exactly one route. It also covers `activate`, which clears the
  active channel.
- **The admin users controller's rules** (`admin_users.dfy`, module `AdminUsers`).
  These cover the penalty-history remapping, the suspend and silence guards and
  target lists, and unsuspend. They also cover the trust-level lock rules and the
  `locked` flag with its unanchored `/true|false/` match. Finally they cover the
  `disable_second_factor` precondition and the post action that follows a penalty.
  Users are records in a map held by a controller class. The guardian checks,
  `Promotion.tl*_met?` / `tl3_lost?`, `User#suspended?`, `User#silenced?` and
  `Post` lookups are boolean inputs.

`options.dfy` holds the shared `Option` type. `None` stands for JavaScript's
`null`/`undefined` and Ruby's `nil`.

JavaScript truthiness is written out. A time counts as given when it is
non-null and non-empty. A duration counts as given when it is non-null and
non-zero. So a duration of 0 draws "time frame required", not "minimum
duration". Ruby's `present?` is written out as "not nil and not only white
space".

Three behaviours of the code are worth stating plainly:

- When `TopicTimer.update` fails, `setTimer` replaces nothing (edit-topic-timer.js:136-140). Only a success
  without a time or duration installs a default timer.
- The modal checks only the time frame and the duration range. It does not check
  that a time is in the future, or that a publish timer has a category
  (edit-topic-timer.js:168-188).
- `trust_level` answers a refused guardian check with a JSON error, because its
  `rescue Discourse::InvalidAccess` covers that check. The other actions answer
  with InvalidAccess (users_controller.rb:286-305).

## Model

| member | source | states |
|---|---|---|
| EditTopicTimer.IdentifiersDistinct | app/assets/javascripts/discourse/app/components/modal/edit-topic-timer.js:10-16 | distinct status types have distinct wire strings (`Identifier`), so comparing strings, as the modal does, is comparing kinds |
| EditTopicTimer.PublicTimerTypes | app/assets/javascripts/discourse/app/components/modal/edit-topic-timer.js:40-103 | the pushes build exactly the menu `TimerMenu`; its first entry is OPEN for a closed topic and CLOSE otherwise |
| EditTopicTimer.TimerMenuOccurrences | app/assets/javascripts/discourse/app/components/modal/edit-topic-timer.js:44-100 | OPEN, CLOSE and BUMP occur exactly once; CLOSE_AFTER_LAST_POST iff the topic is not closed; DELETE and DELETE_REPLIES iff can_delete; PUBLISH_TO_CATEGORY iff read-restricted, private message or invisible |
| EditTopicTimer.MaxDurationIsTwentyYears | app/assets/javascripts/discourse/app/components/modal/edit-topic-timer.js:183-184 | the duration cap 20·365·1440 is 10,512,000 minutes |
| EditTopicTimer.SaveCheck | app/assets/javascripts/discourse/app/components/modal/edit-topic-timer.js:172-188 | "time frame required" iff no time and no or zero duration; "min duration" iff no time and a negative duration; "max duration" iff no time and a duration over 10,512,000; accepted iff a time is given or the duration is in 1..10,512,000 (so with a time the duration is not range-checked) |
| EditTopicTimer.SentStatusType | app/assets/javascripts/discourse/app/components/modal/edit-topic-timer.js:190-193 | the sent kind is never CLOSE_AFTER_LAST_POST; it is CLOSE iff the local kind is CLOSE or CLOSE_AFTER_LAST_POST; every other kind passes unchanged |
| EditTopicTimer.TopicTimer.constructor | app/assets/javascripts/discourse/app/components/modal/edit-topic-timer.js:144-146 | a created timer has the given kind and every other field unset |
| EditTopicTimer.EditTopicTimerModal.constructor | app/assets/javascripts/discourse/app/components/modal/edit-topic-timer.js:21-22 | the modal starts not loading, with no flash and nothing sent |
| EditTopicTimer.EditTopicTimerModal.CreateDefaultTimer | app/assets/javascripts/discourse/app/components/modal/edit-topic-timer.js:143-149 | the topic gets a fresh timer of the menu's first kind, otherwise unset |
| EditTopicTimer.EditTopicTimerModal.SetTimer | app/assets/javascripts/discourse/app/components/modal/edit-topic-timer.js:105-141 | exactly one request is sent; on success with a time or duration, execute_at, duration_minutes, category_id and closed take the result's values and the modal closes; on success without either, the timer is a fresh default and the old timer object is left untouched; on failure the timer is untouched; loading is false afterwards in every case |
| EditTopicTimer.EditTopicTimerModal.OnChangeStatusType | app/assets/javascripts/discourse/app/components/modal/edit-topic-timer.js:151-158 | status_type becomes the value; based_on_last_post is true iff the value is CLOSE_AFTER_LAST_POST; nothing else changes |
| EditTopicTimer.EditTopicTimerModal.OnChangeInput | app/assets/javascripts/discourse/app/components/modal/edit-topic-timer.js:160-166 | only the timer's time changes |
| EditTopicTimer.EditTopicTimerModal.SaveTimer | app/assets/javascripts/discourse/app/components/modal/edit-topic-timer.js:168-202 | a failed check flashes its message and sends nothing; otherwise the flash is cleared, one request with the normalised kind and the timer's fields is sent, and a successful answer is always copied onto the timer |
| EditTopicTimer.EditTopicTimerModal.RemoveTimer | app/assets/javascripts/discourse/app/components/modal/edit-topic-timer.js:204-214 | sends the normalised kind with no time frame; afterwards execute_at is null, loading is false and the flash is as it was; on success the timer is a fresh default and the old timer object is left untouched |
| ChatIndex.HasThreads | plugins/chat/assets/javascripts/discourse/routes/chat-index.js:11-17 | false whenever chat_threads_enabled is off; otherwise whether there are threaded channels |
| ChatIndex.Redirect | plugins/chat/assets/javascripts/discourse/routes/chat-index.js:35-59 | threads iff preference my_threads and hasThreads; direct messages iff direct_messages and hasDirectMessages; the last channel iff channels, public channels enabled, a last channel id and desktop view; the channels list iff channels and public channels but not both of those; browse iff no preference is satisfied |
| ChatIndex.Activate | plugins/chat/assets/javascripts/discourse/routes/chat-index.js:27-29 | the active channel is null afterwards |
| AdminUsers.Removed | app/controllers/admin/users_controller.rb:73-78 | the removed counterpart of a penalty action is not itself a penalty |
| AdminUsers.RemovedInjective | app/controllers/admin/users_controller.rb:73-78 | distinct penalties map to distinct removed actions |
| AdminUsers.RemapPenaltyHistory | app/controllers/admin/users_controller.rb:71-86 | same length and targets; each penalty row of the user becomes its removed counterpart; rows of other users or other actions are unchanged; no penalty row of the user remains |
| AdminUsers.RemapPenaltyHistoryIdempotent | app/controllers/admin/users_controller.rb:71-86 | remapping twice equals remapping once |
| AdminUsers.UsersController.PenaltyHistory | app/controllers/admin/users_controller.rb:67-106 | the history table becomes its remapping for the user, with no user lookup |
| AdminUsers.PostAction | app/controllers/admin/users_controller.rb:604-627 | nothing unless post id and action are present and the post exists; delete and delete-replies iff the guardian allows; edit revises with post_edit; every effect is on the given post |
| AdminUsers.Uniq | app/controllers/admin/users_controller.rb:130-133 | the result has no duplicates and the same elements, kept in the order of their first occurrences (so the same first element); an input without duplicates is returned as it is |
| AdminUsers.ExistingIds | app/controllers/admin/users_controller.rb:131 | the looked-up ids are exactly the given ids that name an existing user |
| AdminUsers.PenaltyTargets | app/controllers/admin/users_controller.rb:129-133 | the list starts with the fetched user, has no duplicates, is just that user when other_user_ids is not an array, and otherwise holds exactly the fetched user and the existing users named |
| AdminUsers.UsersController.Suspend | app/controllers/admin/users_controller.rb:108-188 | unknown user, refused guard, already suspended (409) and missing suspend_until or reason each change nothing; a request that passes all four always succeeds, and then every target, and only they, get suspended_till and suspended_at, and the post action follows |
| AdminUsers.UsersController.Silence | app/controllers/admin/users_controller.rb:361-422 | unknown user, refused guard and already silenced (409) hand no one to the silencer; otherwise the targets are the de-duplicated list headed by the user, and the post action follows |
| AdminUsers.UsersController.Unsuspend | app/controllers/admin/users_controller.rb:190-200 | suspended_till and suspended_at are both null afterwards and nothing else changes |
| AdminUsers.LockAfterTrustLevelChange | app/controllers/admin/users_controller.rb:290-298 | an existing lock is kept; without one, levels 0-2 lock iff the next level is met, level 3 iff TL3 was lost, no other level ever; a new lock is the requested level |
| AdminUsers.UsersController.TrustLevel | app/controllers/admin/users_controller.rb:286-305 | the lock is set as LockAfterTrustLevelChange says and change_trust_level! is then always requested; a refused guard is a JSON error and changes nothing |
| AdminUsers.ContainsIsSubstring | app/controllers/admin/users_controller.rb:311 | the unanchored match is occurrence of the literal at some position |
| AdminUsers.ParseLockFlag | app/controllers/admin/users_controller.rb:310-313 | rejected iff neither "true" nor "false" occurs in the string; locks iff the string is exactly "true" |
| AdminUsers.ParseLockFlagUnanchored | app/controllers/admin/users_controller.rb:311-313 | "xtrue" is accepted and clears the lock; "false" clears it; the empty string (a missing flag) is rejected |
| AdminUsers.UsersController.TrustLevelLock | app/controllers/admin/users_controller.rb:307-320 | a rejected flag changes nothing; an accepted one sets the lock to the current trust level for "true" and clears it otherwise |
| AdminUsers.UsersController.DisableSecondFactor | app/controllers/admin/users_controller.rb:438-451 | InvalidParameters and no change when the user has neither second factors nor security keys; otherwise both are removed |

## Left out

- The deferred-action scheduler is not part of any modelled file: due-timer sweeps, claims, retries, repeating bump rescheduling and recomputation from the last post. Only the client-side timer form is modelled.
- Persistence and side effects are left out: `DB.exec` beyond the row remapping, `save!`, transactions, `Jobs.enqueue`, emails, `DiscourseEvent.trigger`, `StaffActionLogger`, `MessageBus`, `logged_out`. JSON rendering and I18n messages are left out too, including the 409 message text with its staff name and time-ago words.
- These collaborators are not part of this model: `UserSilencer`, `UserDestroyer`, `UserAnonymizer`, `DiscourseConnect`, `AdminUserIndexQuery`, `PostDestroyer`, `PostRevisor`, `DiscourseIpInfo`, `Promotion`, `Group`, `Reviewable`. The controller actions that only forward to them, or are empty, are left out: `index`, `show`, `destroy`, `anonymize`, `merge`, `sync_sso`, `ip_info`, `badges`, `tl3_requirements`.
- These controller actions carry rules of their own but are outside the modelled core: `log_out` (destroys the user's auth tokens), `add_group` and `remove_group` (refuse automatic groups), `primary_group` (sets only a group the user belongs to, clears it when no id is given), `activate` (creates an email token when none is active), and `revoke_admin`, `grant_admin`, `revoke_moderation`, `grant_moderation`, `approve`, `approve_bulk`, `deactivate`, `unsilence`, `delete_posts_batch`, `delete_other_accounts_with_same_ip`, `total_other_accounts_with_same_ip`, `reset_bounce_score`, `sso_record`.
- Ember services and decorators, async/await and the chat `model` hook are left out. So are `popupAjaxError` and `moment` formatting.
- HasDirectMessages and IsPublicChannelsEnabled only read one input each; their meaning is stated through Redirect.
- ExistingIds: the order in which the database returns the users is unspecified; the model keeps parameter order.
- PenaltyTargets: the order of the users after the first is not stated, for the same reason.
- Suspend: uses one `now` for every target, where the source reads the clock once per user. `suspend_until` is taken as an already parsed timestamp, and the response body is not modelled.
- Suspend, Silence: whether the user is already suspended or silenced is an input; `User#suspended?` and `User#silenced?` are not tied to the record's `suspendedTill` column or to a silence column.
- Silence: what `UserSilencer` does to each target is not modelled; the method returns the users it would be handed.
- TrustLevel: `change_trust_level!` is recorded as a call with the requested level. Its effect on the user is not modelled, and whether it refuses is an input. `params[:level].to_i` is taken as an integer.
- TrustLevelLock: the `Promotion.recalculate` call is not modelled.
- DisableSecondFactor: second factors and security keys are counts, not records.
- SetTimer: the server's answer is a parameter; closing the modal is a flag.
- OnChangeInput: takes the time as already formatted; `moment` formatting is not modelled.
- SaveCheck: durations are integers; a duration held as a string by the input widget is not modelled.
- Redirect: the channel route carries the last channel's id, not the route models of the channel that `chatChannelsManager.find` resolves.
- PostAction: Ruby's `blank?` is approximated as a string made only of space, tab, newline and carriage return.
