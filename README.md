# Build MLOps blog and newsletter — a Dafny model

This project models the core of the Build MLOps site: a static blog with a newsletter served by AWS Lambda functions. It covers:

- **The subscriber lifecycle on one DynamoDB table keyed by e-mail address:**
  - sign-up (`pending`, with a random confirmation token);
  - confirmation (`active`, token consumed);
  - unsubscription through a link (`handler`) or the API (`apiHandler`);
  - resubscription;
  - the block that a bounce or complaint reported by SES puts on an address (`bounced` / `complained`): sign-up and resubscription refuse it, but it can be lifted. The unsubscribe API does not check the status, so an API unsubscription followed by a resubscription makes the address active again. Confirmation does not check it either, so a pending address that bounces or complains becomes active through its confirmation link.
- **The unsubscribe statistics endpoint.**
- **The publish Lambda:**
  - it reads the active subscribers page by page;
  - it sends either one test message or one personalised newsletter per subscriber, in batches of 50, each with an unsubscribe footer;
  - it writes back the unsubscribe token of subscribers who had none.
- **The CloudFront viewer-request function** that maps directory URIs to `index.html`.
- **The post loader** (`getAllPosts`, `getPostBySlug`) and the **blog filter bar**: a search and tag filter mirrored into the query string.
- **The admin page's Markdown-to-HTML converter** and the request body it posts to the publish endpoint.

Every handler is a method over a `Store.Table` object, whose `items` map is updated in place. Each handler's postcondition states its response and the new table contents. The string and list operations are functions, with lemmas for the properties the site relies on. Highlights:

- The unsubscribe link in every newsletter carries a token that the unsubscribe handlers accept, for every address that URL decoding leaves as it is.
- Sign-up and resubscription both refuse a bounced or complained address. An API unsubscription followed by a resubscription brings it back, and so does a pending confirmation link.
- The batches cover the subscriber list exactly once.
- The post list is a newest-first permutation.
- The CloudFront rewrite is idempotent.
- The filter state is restored from the parameter list that `updateURL` builds its URL from (URL decoding itself is left out).

Some things come from outside the code and become parameters:

- SHA-256 is `sha256Hex`.
- `decodeURIComponent` is `decode`, returning None where it throws.
- The clock is `now`.
- The random confirmation token is `freshToken`.
- gray-matter's parse of each file is the `PostsDirectory.files` map, and the reading-time estimate is `readingTime`.
- The outcome of each SES send is the oracle `ses`; the scan is the sequence of pages DynamoDB returns.
- Whether the calls made after a table write succeed is `sesAccepts` or `metricsOk`.

In one place the code differs from a plain reading of "hash of the address plus a salt", and the model follows the code. The publish Lambda computes `email + process.env.UNSUBSCRIBE_SALT || 'default-salt'`, so it hashes `email + "undefined"` when the salt is unset. The unsubscribe Lambda applies the default first. `Lifecycle.TokenInputsAgree` states exactly when the two agree. `Lifecycle.NewsletterLinkAccepted` shows that the link still works, because the publish Lambda stores the token it used.

## Model

| member | source | states |
|---|---|---|
| Strings.IndexOfFrom | mlops-blog/lambda/publish/index.js:321 | the index found is an occurrence at or after `from` and no earlier one exists; None means there is none at all |
| Strings.IndexOf | mlops-blog/lambda/publish/index.js:321 | found iff `includes` holds, and the index is the first occurrence |
| Strings.ReplaceAll | mlops-blog/lambda/publish/index.js:272-274 | a global literal replacement leaves a string without the pattern unchanged |
| Strings.ReplaceAllFirstOccurrence | mlops-blog/lambda/publish/index.js:272-274 | for all inputs: the first occurrence of the pattern is replaced and the scan resumes right after it, the text before it kept |
| Strings.ReplaceAllPlainPrefix | mlops-blog/lambda/publish/index.js:272-274 | a prefix without the pattern's first character is kept and the rest is replaced on its own |
| Strings.FirstCharUnique | mlops-blog/lambda/publish/index.js:272-274 | a pattern whose first character does not recur cannot overlap itself (true of `{{name}}`, `{{email}}`, `{{firstName}}`) |
| Strings.NoSeamOccurrence | mlops-blog/lambda/publish/index.js:272-274 | for a pattern that cannot overlap itself, text without it gains no occurrence from a proper prefix of the pattern |
| Strings.ReplaceAllSingle | mlops-blog/lambda/publish/index.js:272-274 | one occurrence of a non-overlapping pattern between pattern-free text becomes the replacement, the text on both sides kept |
| Strings.ReplaceFirst | mlops-blog/lambda/publish/index.js:322 | `replace(string, …)` replaces only the first occurrence, and changes nothing without one |
| Strings.ReplaceFirstInserts | mlops-blog/lambda/publish/index.js:322 | replacing `</body>` by `footer + '</body>'` inserts the footer just before the first `</body>` |
| Strings.ContainsTransitive | mlops-blog/lambda/publish/index.js:321-325 | what occurs inside a part of a string occurs in the string |
| Strings.TrimStart | mlops-blog/lambda/publish/index.js:337 | the result is a suffix after only white space and starts with non-space |
| Strings.TrimEnd | mlops-blog/lambda/publish/index.js:337 | the result is a prefix before only white space and ends with non-space |
| Strings.Trim | mlops-blog/lambda/publish/index.js:337 | `trim` gives a slice surrounded only by white space, with no white space at either end |
| Strings.Substring0 | mlops-blog/lambda/unsubscribe/index.js:17 | `substring(0, n)` is a prefix of length min(n, length) |
| Strings.FirstWord | mlops-blog/lambda/publish/index.js:274 | `split(' ')[0]` is the longest space-free prefix |
| Strings.ToLower | mlops-blog/src/components/blog-filters.tsx:54-55 | `toLowerCase` keeps the length, maps each character to its lower case and leaves no upper-case letter |
| Strings.ToLowerIdempotent | mlops-blog/src/components/blog-filters.tsx:54-55 | lowering twice equals lowering once |
| Strings.LexLessIrreflexive | mlops-blog/src/lib/posts.ts:47 | no date string is smaller than itself |
| Strings.LexLessTotal | mlops-blog/src/lib/posts.ts:47 | any two different date strings are ordered one way or the other |
| Strings.LexLessTransitive | mlops-blog/src/lib/posts.ts:47 | string `<` is transitive |
| Strings.LexLessAsymmetric | mlops-blog/src/lib/posts.ts:47 | string `<` is asymmetric |
| Strings.LexLess | mlops-blog/src/lib/posts.ts:47 | agrees with Dafny's proper-prefix order: a proper prefix is smaller |
| Url.Utf8 | mlops-blog/lambda/publish/index.js:301 | a character encodes as 1 to 4 bytes, a single byte equal to the code exactly for ASCII |
| Url.PercentByte | mlops-blog/lambda/publish/index.js:301 | one byte becomes `%` and two hex digits |
| Url.PercentBytes | mlops-blog/lambda/publish/index.js:301 | three characters per byte, each `%` or a hex digit |
| Url.EncodeUriComponent | mlops-blog/lambda/publish/index.js:301 | `encodeURIComponent` outputs only unreserved characters and `%` |
| Url.FormEncode | mlops-blog/src/components/blog-filters.tsx:36 | `URLSearchParams` serialisation outputs only form-safe characters, `%` and `+` |
| Url.EncodedValuesHaveNoDelimiters | mlops-blog/lambda/publish/index.js:301 | an encoded value never holds `&`, `=` or `#`, so it cannot break the link's query string |
| Url.EncodeUnreservedIsIdentity | mlops-blog/lambda/publish/index.js:301 | an address made of unreserved characters is encoded as itself |
| Store.Bare | mlops-blog/lambda/subscribe/index.js:287-295 | an `update` on a missing key starts from an item holding only the key |
| Store.Current | mlops-blog/lambda/subscribe/index.js:273-283 | an `update` modifies the stored item, or the bare one when the key is absent |
| Store.Table.constructor | mlops-blog/lambda/subscribe/index.js:63-66 | a table starts keyed, with the given items |
| Store.Table.Get | mlops-blog/lambda/subscribe/index.js:63-66 | `get` returns the item stored under the key, if any, and changes nothing |
| Store.Table.Put | mlops-blog/lambda/subscribe/index.js:88-103 | `put` replaces the whole item under its key, nothing else |
| Store.Table.Update | mlops-blog/lambda/subscribe/index.js:171-182 | `update` applies its expression to the current (or bare) item under the key, nothing else |
| SubscribeLambda.ValidEmailIffPattern | mlops-blog/lambda/subscribe/index.js:326-328 | the address rule accepts exactly the strings `/^[^\s@]+@[^\s@]+\.[^\s@]+$/` matches |
| SubscribeLambda.ValidEmailMatches | mlops-blog/lambda/subscribe/index.js:326-328 | every accepted address has a match of the pattern |
| SubscribeLambda.MatchIsValidEmail | mlops-blog/lambda/subscribe/index.js:326-328 | every match of the pattern is accepted |
| SubscribeLambda.PendingItem | mlops-blog/lambda/subscribe/index.js:88-103 | the sign-up item is pending with the fresh token, name default `''`, tag `general`, and no unsubscribe token, bounce count or reason |
| SubscribeLambda.Subscribe | mlops-blog/lambda/subscribe/index.js:42-149 | bad JSON → 400, missing or invalid address → 400, table unchanged; otherwise the sign-up outcome |
| SubscribeLambda.SignUp | mlops-blog/lambda/subscribe/index.js:62-148 | active → 200 already subscribed, bounced/complained → 400 cannot subscribe, both unchanged; else the pending item is put and 200, or 500 if the e-mail or metric fails |
| SubscribeLambda.Confirmed | mlops-blog/lambda/subscribe/index.js:171-182 | the confirmed item is active, its confirmation token removed, `confirmedAt` set, the unsubscribe token kept |
| SubscribeLambda.Confirm | mlops-blog/lambda/subscribe/index.js:152-223 | missing token or address → 400; unknown address or wrong token → 400 unchanged; else the item is confirmed and the answer is a redirect, or 500 when the welcome e-mail fails |
| SubscribeLambda.EventType | mlops-blog/lambda/subscribe/index.js:232 | `eventType`, or `notificationType` when that is falsy |
| SubscribeLambda.MarkBounced | mlops-blog/lambda/subscribe/index.js:273-283 | a permanent bounce sets status `bounced` |
| SubscribeLambda.CountTransient | mlops-blog/lambda/subscribe/index.js:287-295 | a transient bounce adds one to the counter (0 when missing) and keeps the status |
| SubscribeLambda.MarkComplained | mlops-blog/lambda/subscribe/index.js:312-322 | a complaint sets status `complained` and the feedback type, default `not-specified` |
| SubscribeLambda.PermanentBounceMarksRecipients | mlops-blog/lambda/subscribe/index.js:259-299 | after a permanent bounce every recipient is stored as bounced; other addresses are untouched |
| SubscribeLambda.TransientBounceCountsRecipients | mlops-blog/lambda/subscribe/index.js:285-296 | each recipient's counter grows by the number of times it is listed |
| SubscribeLambda.TransientBounceLeavesOthers | mlops-blog/lambda/subscribe/index.js:285-296 | a transient bounce leaves unlisted addresses as they were |
| SubscribeLambda.OtherBounceChangesNothing | mlops-blog/lambda/subscribe/index.js:271-296 | a bounce that is neither permanent nor transient changes no item |
| SubscribeLambda.ComplaintMarksRecipients | mlops-blog/lambda/subscribe/index.js:302-324 | every complaining recipient is stored as complained; other addresses are untouched |
| SubscribeLambda.HandleBounce | mlops-blog/lambda/subscribe/index.js:259-299 | the loop leaves the table equal to the recipients processed in order |
| SubscribeLambda.HandleComplaint | mlops-blog/lambda/subscribe/index.js:302-324 | the loop leaves the table equal to the complaint applied to each recipient in order |
| SubscribeLambda.SesEvent | mlops-blog/lambda/subscribe/index.js:226-256 | unparsable message, or a Bounce / Complaint without its part → 500 unchanged; Bounce / Complaint applied to every recipient, any other type ignored, 200 |
| UnsubscribeLambda.Salt | mlops-blog/lambda/unsubscribe/index.js:10 | the salt is the environment value when truthy, else `default-salt` |
| UnsubscribeLambda.TokenInput | mlops-blog/lambda/unsubscribe/index.js:15 | the hashed string is exactly the address followed by the salt |
| UnsubscribeLambda.GenerateUnsubscribeToken | mlops-blog/lambda/unsubscribe/index.js:13-18 | the token is the first 32 hex digits of the digest |
| UnsubscribeLambda.ExpectedToken | mlops-blog/lambda/unsubscribe/index.js:75 | a stored token takes precedence over the generated one |
| UnsubscribeLambda.LinkDecision | mlops-blog/lambda/unsubscribe/index.js:43-115 | each outcome holds exactly under its condition, in the order the link handler checks them |
| UnsubscribeLambda.LinkRedirect | mlops-blog/lambda/unsubscribe/index.js:49-104 | every decision answers with a 302 redirect |
| UnsubscribeLambda.UnsubscribeLink | mlops-blog/lambda/unsubscribe/index.js:43-115 | the link handler always redirects and never writes the table |
| UnsubscribeLambda.UnsubscribedItem | mlops-blog/lambda/unsubscribe/index.js:166-191 | status `unsubscribed`, method `link` when a token came else `api`, reason and feedback only when given, tokens kept |
| UnsubscribeLambda.ApiUnsubscribe | mlops-blog/lambda/unsubscribe/index.js:119-217 | 400 bad body, 400 no address, 404 unknown, 401 bad token, 200 already unsubscribed (all unchanged), else item unsubscribed and 200 |
| UnsubscribeLambda.FeedbackLinkTokenAccepted | mlops-blog/lambda/unsubscribe/index.js:62-104 | a feedback-page redirect means the decoded address is stored and not yet unsubscribed; when decoding keeps the address, the API handler accepts the same token for it |
| UnsubscribeLambda.Reactivated | mlops-blog/lambda/unsubscribe/index.js:269-280 | resubscription makes the item active and removes reason and feedback, keeping the tokens |
| UnsubscribeLambda.Resubscribe | mlops-blog/lambda/unsubscribe/index.js:220-305 | 400 bad body or missing fields, 404 unknown, 200 already subscribed when active, 400 bounced/complained (all unchanged); else reactivated, then 200, or 500 when the metric fails |
| UnsubscribeLambda.StatsHandler | mlops-blog/lambda/unsubscribe/index.js:308-367 | wrong key → 401; else the count and, per reason and per method, the number of items carrying it |
| PublishContent.FirstNameFor | mlops-blog/lambda/publish/index.js:274 | `{{firstName}}` becomes a space-free prefix of the name when the name is truthy, else `Friend` |
| PublishContent.NameFor | mlops-blog/lambda/publish/index.js:272 | `{{name}}` becomes the name when truthy, else `Subscriber` |
| PublishContent.PersonalizeContent | mlops-blog/lambda/publish/index.js:267-275 | empty content → `''`; content without any of the three placeholders is unchanged |
| PublishContent.PlaceholdersOverlapFree | mlops-blog/lambda/publish/index.js:272-274 | none of the three placeholders can overlap itself, so occurrences are replaced independently |
| PublishContent.NamePlaceholderReplaced | mlops-blog/lambda/publish/index.js:272 | for any text around it, `{{name}}` becomes the name (or `Subscriber`) and the text around it is kept |
| PublishContent.EmailPlaceholderReplaced | mlops-blog/lambda/publish/index.js:273 | for any text around it, `{{email}}` becomes the address and the text around it is kept |
| PublishContent.FirstNamePlaceholderReplaced | mlops-blog/lambda/publish/index.js:274 | for any text around it, `{{firstName}}` becomes the first name (or `Friend`) and the text around it is kept |
| PublishContent.UnsubscribeUrlParameters | mlops-blog/lambda/publish/index.js:301 | the link's `email` value is the encoded address and ends at the `&token=` |
| PublishContent.UnsubscribeUrl | mlops-blog/lambda/publish/index.js:301 | the link starts with `https://<domain>/unsubscribe?email=` and ends with `&token=` and the token |
| PublishContent.EmailParameterEnds | mlops-blog/lambda/publish/index.js:301 | in a link built as prefix, value without `&`, `&token=` and the raw token, the first `&` after the prefix is where the value ends |
| PublishContent.FooterCarriesUnsubscribeLink | mlops-blog/lambda/publish/index.js:303-318 | every footer contains the subscriber's unsubscribe link |
| PublishContent.InsertFooter | mlops-blog/lambda/publish/index.js:320-325 | the footer goes right before the first `</body>`, or is appended when there is none |
| PublishContent.FooterInsertionKeepsBody | mlops-blog/lambda/publish/index.js:320-325 | removing the footer gives back the body |
| PublishContent.InsertFooterKeepsContents | mlops-blog/lambda/publish/index.js:320-325 | whatever the footer contains, the page contains |
| PublishContent.AddNewsletterFooter | mlops-blog/lambda/publish/index.js:300-326 | whatever the body, the page sent contains the subscriber's unsubscribe link |
| PublishContent.RemoveTags | mlops-blog/lambda/publish/index.js:330 | tag removal never lengthens and keeps text without `<` or `>` |
| PublishContent.TagAtFront | mlops-blog/lambda/publish/index.js:330 | a tag at the front, from `<` to the first `>`, is dropped and the rest stripped on its own |
| PublishContent.KeepFirst | mlops-blog/lambda/publish/index.js:330 | a character other than `<` is kept and the scan moves on |
| PublishContent.PlainPrefixKept | mlops-blog/lambda/publish/index.js:330 | text before the first `<` is kept as it is |
| PublishContent.TagBetweenText | mlops-blog/lambda/publish/index.js:330 | for text, a tag and more text, the text before the tag is kept and the tag removed |
| PublishContent.RemoveTagsLeavesNoTag | mlops-blog/lambda/publish/index.js:330 | no `<` followed later by `>` is left |
| PublishContent.DecodeEntities | mlops-blog/lambda/publish/index.js:331-336 | text without `&` is unchanged |
| PublishContent.EntitiesWellFormed | mlops-blog/lambda/publish/index.js:331-336 | the six references each start with `&`, hold no other `&` and differ in their second character, so at most one can match at any `&` |
| PublishContent.DecodeWithoutReferences | mlops-blog/lambda/publish/index.js:331-336 | the chain of replacements leaves text without `&` unchanged |
| PublishContent.DecodeWithPlainPrefix | mlops-blog/lambda/publish/index.js:331-336 | the chain of replacements keeps a prefix without `&` and decodes the rest on its own |
| PublishContent.DecodeWithReference | mlops-blog/lambda/publish/index.js:331-336 | a reference at the front whose replacement has no `&` becomes its character, the rest decoded on its own |
| PublishContent.LoneAmpersandKept | mlops-blog/lambda/publish/index.js:331-336 | an `&` not followed by the second character of any reference is kept |
| PublishContent.DecodeKeepsPlainText | mlops-blog/lambda/publish/index.js:331-336 | `&`-free text before anything else is kept as is |
| PublishContent.DecodesReference | mlops-blog/lambda/publish/index.js:331-336 | `&nbsp;`, `&lt;`, `&gt;`, `&quot;` and `&#039;` at the front become space, `<`, `>`, `"` and `'`, for any text after them |
| PublishContent.DecodesAmpersand | mlops-blog/lambda/publish/index.js:332 | `&amp;` becomes `&` when what follows has no `&` and cannot complete a later reference |
| PublishContent.StripHtml | mlops-blog/lambda/publish/index.js:328-338 | the plain text has no white space at either end |
| PublishContent.StripHtmlKeepsPlainText | mlops-blog/lambda/publish/index.js:328-338 | text free of markup, entities and outer white space is its own plain text |
| PublishContent.StripHtmlOfUntagged | mlops-blog/lambda/publish/index.js:328-338 | markup-free text is only decoded and trimmed |
| PublishContent.EncodedTagSurvives | mlops-blog/lambda/publish/index.js:330-337 | for every `x` without `<` or `&`, `&lt;x&gt;` is stripped to `<x>`: tags are removed before entities are decoded |
| PublishContent.DoublyEncodedIsDecodedTwice | mlops-blog/lambda/publish/index.js:332-333 | for every `x` without `&`, `&amp;lt;x` decodes to `<x`: `&amp;` is replaced before `&lt;` |
| PublishLambda.PublishTokenInput | mlops-blog/lambda/publish/index.js:280 | `email + salt \|\| 'default-salt'`: `undefined` appended for an unset salt, default only when the whole sum is empty |
| PublishLambda.GeneratePublishToken | mlops-blog/lambda/publish/index.js:277-283 | the first 32 hex digits of the digest of that input |
| PublishLambda.TokenFor | mlops-blog/lambda/publish/index.js:194 | the stored token, or a generated one when none is stored |
| PublishLambda.FinalPageFrom | mlops-blog/lambda/publish/index.js:164-173 | the first page without a continuation key |
| PublishLambda.GetActiveSubscribers | mlops-blog/lambda/publish/index.js:149-176 | the do-while loop returns the items of the pages up to the first one without a key |
| PublishLambda.Batches | mlops-blog/lambda/publish/index.js:186-187 | every batch holds 1 to 50 subscribers, and there is none iff the list is empty |
| PublishLambda.BatchesPartition | mlops-blog/lambda/publish/index.js:186-187 | the batches concatenate to the list, number ⌈n/50⌉, and all but the last hold exactly 50 |
| PublishLambda.BatchAt | mlops-blog/lambda/publish/index.js:186-187 | batch b is the slice from 50·b to min(50·b + 50, n) |
| PublishLambda.Email | mlops-blog/lambda/publish/index.js:252-265 | the message keeps recipient, subject and HTML; a non-empty text is kept, an empty one is replaced by the stripped HTML |
| PublishLambda.PlainBodyIsItsOwnText | mlops-blog/lambda/publish/index.js:260 | without a text part, an HTML body free of markup, entities and outer white space is sent as its own text |
| PublishLambda.Newsletter | mlops-blog/lambda/publish/index.js:194-205 | each newsletter goes to its subscriber with the campaign subject, contains that subscriber's unsubscribe link with the token used for them, and without a text part its text is the stripped HTML |
| PublishLambda.Failures | mlops-blog/lambda/publish/index.js:222-232 | at most one error per send |
| PublishLambda.FailuresAreRejections | mlops-blog/lambda/publish/index.js:222-232 | every rejected send leaves its own error, and every error comes from a rejected send |
| PublishLambda.WriteBacks | mlops-blog/lambda/publish/index.js:208-210 | the write-backs only add or keep keys |
| PublishLambda.WriteBacksOnlySetTokens | mlops-blog/lambda/publish/index.js:208-210 | the table stays keyed and only unsubscribe tokens change |
| PublishLambda.WriteBackStoresLinkToken | mlops-blog/lambda/publish/index.js:194-210 | a delivered send to a subscriber without a token stores the token its link carries |
| PublishLambda.SendsCount | mlops-blog/lambda/publish/index.js:222-232 | successes plus failures equal the sends, and the errors are the failures |
| PublishLambda.SendsOutbox | mlops-blog/lambda/publish/index.js:196-205 | one message per subscriber, in order |
| PublishLambda.SendsWriteBack | mlops-blog/lambda/publish/index.js:208-210 | the table after the sends is the write-backs |
| PublishLambda.SendOne | mlops-blog/lambda/publish/index.js:192-220 | one send is one step of the specification |
| PublishLambda.SendBatch | mlops-blog/lambda/publish/index.js:188-221 | one batch extends the progress by its sends |
| PublishLambda.SendsFromNothing | mlops-blog/lambda/publish/index.js:178-250 | from nothing sent, all sends count every subscriber once, keep the failures in order, hand SES one message per subscriber and leave the table with exactly the write-backs |
| PublishLambda.SendBulkEmails | mlops-blog/lambda/publish/index.js:178-250 | counts add up, errors are the rejections, each subscriber's message sent in order, batches of 50, one pause between batches, table = write-backs |
| PublishLambda.BodyText | mlops-blog/lambda/publish/index.js:109-113 | the given text when truthy, else the stripped HTML |
| PublishLambda.CampaignOf | mlops-blog/lambda/publish/index.js:109-113 | the campaign carries the subject, the HTML and that text |
| PublishLambda.TestEmail | mlops-blog/lambda/publish/index.js:94-99 | the test message goes to the test address, its subject is `[TEST] ` and the subject, and its page carries an unsubscribe link with the token `test-token` |
| PublishLambda.PublishTest | mlops-blog/lambda/publish/index.js:87-106 | test mode sends exactly the test message; 200 when delivered, else 500 |
| PublishLambda.PublishAll | mlops-blog/lambda/publish/index.js:109-146 | every subscriber's newsletter, the write-backs, and 200 with the counts, or 500 when the metric fails |
| PublishLambda.Publish | mlops-blog/lambda/publish/index.js:41-147 | 400 bad body, 401 wrong key, 400 missing fields, 500 failed scan, the no-subscribers answer, 400 test mode without address, all with nothing sent and no table change; else the test send or the production send |
| CloudFrontFunction.Request.constructor | mlops-blog/cloudfront-function.js:3-4 | the request holds the given URI |
| CloudFrontFunction.RewriteUri | mlops-blog/cloudfront-function.js:6-13 | `index.html` after a trailing slash, `/index.html` without a dot, else unchanged; the result always names a file and extends the URI |
| CloudFrontFunction.RewriteIdempotent | mlops-blog/cloudfront-function.js:6-13 | rewriting twice equals rewriting once |
| CloudFrontFunction.Handler | mlops-blog/cloudfront-function.js:2-16 | the same request comes back with its URI rewritten |
| Posts.Slug | mlops-blog/src/lib/posts.ts:30 | the name is the slug followed by `.mdx` or `.md` |
| Posts.PostFrom | mlops-blog/src/lib/posts.ts:33-45 | title, date and excerpt fall back to slug, now and `''` when falsy; tags to `[]` when missing |
| Posts.NotOlderTransitive | mlops-blog/src/lib/posts.ts:47 | "not older" is transitive |
| Posts.Insert | mlops-blog/src/lib/posts.ts:47 | inserting into a newest-first list adds exactly the post and keeps it newest first |
| Posts.SortByDate | mlops-blog/src/lib/posts.ts:47 | the sorted list is a permutation, newest first |
| Posts.PostsOf | mlops-blog/src/lib/posts.ts:27-46 | no more posts than names |
| Posts.PostsOfExactly | mlops-blog/src/lib/posts.ts:27-46 | a post is produced iff some listed post file gives it |
| Posts.AllPosts | mlops-blog/src/lib/posts.ts:26-49 | the listing is newest first and no longer than the directory |
| Posts.AllPostsFromPostFiles | mlops-blog/src/lib/posts.ts:26-49 | a post is listed iff a listed `.md`/`.mdx` file gives it |
| Posts.PostBySlug | mlops-blog/src/lib/posts.ts:52-77 | `.mdx` first, then `.md`, null iff neither exists |
| Posts.ListedPostFoundBySlug | mlops-blog/src/lib/posts.ts:28-77 | every listed post opens by its slug, as the same post unless an `.mdx` sibling wins |
| Posts.PostsDirectory.constructor | mlops-blog/src/lib/posts.ts:7 | the directory holds the given listing |
| Posts.PostsDirectory.GetAllPosts | mlops-blog/src/lib/posts.ts:19-50 | a missing directory is created empty and gives `[]`; otherwise the listing, with nothing on disk changed |
| BlogFilters.FilteredPosts | mlops-blog/src/components/blog-filters.tsx:51-61 | filtering never adds posts |
| BlogFilters.FilterDistributes | mlops-blog/src/components/blog-filters.tsx:52-60 | filtering works post by post and keeps order |
| BlogFilters.FilteredExactly | mlops-blog/src/components/blog-filters.tsx:52-60 | a post is shown iff it is listed and matches both search and tag |
| BlogFilters.SearchIgnoresCase | mlops-blog/src/components/blog-filters.tsx:54-55 | a search matches the same posts as its lower-cased form |
| BlogFilters.NoFilterShowsAll | mlops-blog/src/components/blog-filters.tsx:53-57 | with no search and no tag every post is shown, in order |
| BlogFilters.EmptyTagIsNoTag | mlops-blog/src/components/blog-filters.tsx:57 | an empty tag filters like none |
| BlogFilters.Params | mlops-blog/src/components/blog-filters.tsx:32-34 | `search` is set iff non-empty, `tag` iff truthy |
| BlogFilters.Get | mlops-blog/src/components/blog-filters.tsx:24-25 | `get` returns the first value set under the key, or None when there is none |
| BlogFilters.Pair | mlops-blog/src/components/blog-filters.tsx:36 | a parameter is written as exactly its key, `=` and its form-encoded value |
| BlogFilters.Serialize | mlops-blog/src/components/blog-filters.tsx:36 | the query string is empty iff there are no parameters |
| BlogFilters.SerializeSplits | mlops-blog/src/components/blog-filters.tsx:36 | the query splits at `&` back into one piece per parameter, in order |
| BlogFilters.TargetUrl | mlops-blog/src/components/blog-filters.tsx:36-37 | the bare path is pushed iff there is neither search nor tag |
| BlogFilters.ParamsRestoreState | mlops-blog/src/components/blog-filters.tsx:22-38 | reading back the parameters `updateURL` set restores the search and tag |
| BlogFilters.FilterBar.constructor | mlops-blog/src/components/blog-filters.tsx:19-20 | empty search, no tag, nothing pushed |
| BlogFilters.FilterBar.Shown | mlops-blog/src/components/blog-filters.tsx:51-61 | the listed posts are never more than all posts |
| BlogFilters.FilterBar.InitFromUrl | mlops-blog/src/components/blog-filters.tsx:22-28 | search is `search \|\| ''`, tag is `tag \|\| null`; nothing pushed |
| BlogFilters.FilterBar.UpdateUrl | mlops-blog/src/components/blog-filters.tsx:31-38 | pushes the target URL and changes no filter |
| BlogFilters.FilterBar.SearchChange | mlops-blog/src/components/blog-filters.tsx:40-43 | sets the search and pushes its URL with the current tag |
| BlogFilters.FilterBar.TagChange | mlops-blog/src/components/blog-filters.tsx:45-48 | sets the tag and pushes its URL with the current search |
| BlogFilters.FilterBar.AllPosts | mlops-blog/src/components/blog-filters.tsx:99 | clears the tag and keeps the search |
| BlogFilters.FilterBar.ClickTag | mlops-blog/src/components/blog-filters.tsx:111 | the selected tag is cleared, any other one is selected |
| BlogFilters.FilterBar.ClearFilters | mlops-blog/src/components/blog-filters.tsx:168-173 | both filters reset and the bare path is pushed |
| BlogFilters.ClearThenShowAll | mlops-blog/src/components/blog-filters.tsx:148-154 | after clearing, every post is listed, in order |
| BlogFilters.ToggleTwice | mlops-blog/src/components/blog-filters.tsx:111 | a selection of no tag or of the clicked tag is restored, the search kept; from another tag the two clicks end with none |
| NewsletterAdmin.LineLength | mlops-blog/src/app/admin/newsletter/page.tsx:192-194 | the first line ends at the first line terminator |
| NewsletterAdmin.HeadingPassOfLine | mlops-blog/src/app/admin/newsletter/page.tsx:192-194 | on a single line a heading pass is the line rule |
| NewsletterAdmin.HeadingPassByLine | mlops-blog/src/app/admin/newsletter/page.tsx:192-194 | a heading pass works line by line, keeping terminators |
| NewsletterAdmin.H3Line | mlops-blog/src/app/admin/newsletter/page.tsx:192-194 | a `### ` line becomes `<h3>`, untouched by later rules |
| NewsletterAdmin.H2Line | mlops-blog/src/app/admin/newsletter/page.tsx:192-194 | a `## ` line becomes `<h2>` |
| NewsletterAdmin.H1Line | mlops-blog/src/app/admin/newsletter/page.tsx:192-194 | a `# ` line becomes `<h1>` |
| NewsletterAdmin.PlainLine | mlops-blog/src/app/admin/newsletter/page.tsx:192-194 | a line not starting with `#` is no heading |
| NewsletterAdmin.Headings | mlops-blog/src/app/admin/newsletter/page.tsx:192-194 | text without `#` passes the three heading rules unchanged |
| NewsletterAdmin.HeadingPassWithoutHash | mlops-blog/src/app/admin/newsletter/page.tsx:192-194 | one heading pass leaves text without `#` unchanged |
| NewsletterAdmin.SpanLength | mlops-blog/src/app/admin/newsletter/page.tsx:196-198 | an emphasis span is a non-empty `*`-free run ending at a closing delimiter |
| NewsletterAdmin.Emphasis | mlops-blog/src/app/admin/newsletter/page.tsx:196-198 | text without `*` is unchanged by the bold and italic rules |
| NewsletterAdmin.EmphasisSpan | mlops-blog/src/app/admin/newsletter/page.tsx:196-198 | a delimited run is wrapped and the pass continues after it |
| NewsletterAdmin.BoldSpan | mlops-blog/src/app/admin/newsletter/page.tsx:196-198 | `**x**` becomes `<strong>x</strong>` |
| NewsletterAdmin.ItalicSpan | mlops-blog/src/app/admin/newsletter/page.tsx:196-198 | `*x*` becomes `<em>x</em>` |
| NewsletterAdmin.BoldSkipsRun | mlops-blog/src/app/admin/newsletter/page.tsx:196 | a single `*` is left for the italic rule |
| NewsletterAdmin.LinkAt | mlops-blog/src/app/admin/newsletter/page.tsx:200 | a link match consumes a non-empty prefix |
| NewsletterAdmin.Links | mlops-blog/src/app/admin/newsletter/page.tsx:200 | text without `[` is unchanged |
| NewsletterAdmin.LinkAtWellFormed | mlops-blog/src/app/admin/newsletter/page.tsx:200 | a link whose text has no `]` and whose url has no `)` is matched whole, text and url as written |
| NewsletterAdmin.LinkSpan | mlops-blog/src/app/admin/newsletter/page.tsx:200 | `[text](url)` becomes `<a href="url">text</a>` |
| NewsletterAdmin.Paragraphs | mlops-blog/src/app/admin/newsletter/page.tsx:202 | text without a blank line (`\n\n`) is unchanged |
| NewsletterAdmin.FirstBlankLineBreaks | mlops-blog/src/app/admin/newsletter/page.tsx:202 | the first `\n\n` becomes `</p><p>`, the text before it kept and the rest converted on its own |
| NewsletterAdmin.NoBlankLineLeft | mlops-blog/src/app/admin/newsletter/page.tsx:202 | no two line feeds in a row are left |
| NewsletterAdmin.ConvertMarkdownToHtml | mlops-blog/src/app/admin/newsletter/page.tsx:188-205 | the result is wrapped in `<p>` … `</p>` |
| NewsletterAdmin.PlainTextOnlyWrapped | mlops-blog/src/app/admin/newsletter/page.tsx:188-205 | text with no Markdown is only wrapped |
| NewsletterAdmin.AdminPublishBody | mlops-blog/src/app/admin/newsletter/page.tsx:21-32 | converted HTML, raw Markdown as text, test address iff test mode; the publish handler accepts it iff the subject is non-empty |
| Lifecycle.TokenInputsAgree | mlops-blog/lambda/publish/index.js:277-283 | the two Lambdas hash the same string iff the salt is set and non-empty (or salt and address are both empty) |
| Lifecycle.NewsletterLinkAccepted | mlops-blog/lambda/publish/index.js:194-210 | after the sends the newsletter's link token is accepted by the API handler; the link handler shows the feedback or already-unsubscribed page when decoding keeps the address, and the error page when decoding fails |
| Lifecycle.SignUpAndConfirm | mlops-blog/lambda/subscribe/index.js:152-223 | sign-up, then confirmation redirects, then a second confirmation fails; the address is active; nothing else changes |
| Lifecycle.UnsubscribeAndReturn | mlops-blog/lambda/unsubscribe/index.js:220-305 | API unsubscribe then resubscribe: active, no reason, token kept |
| Lifecycle.BounceBlocksSignUpAndResubscribe | mlops-blog/lambda/subscribe/index.js:76-81 | after a permanent bounce, sign-up and resubscribe both answer 400 and the address stays bounced |
| Lifecycle.ComplainedThenConfirmed | mlops-blog/lambda/subscribe/index.js:152-182 | a pending address that complains and then follows its confirmation link ends active: confirmation does not check the status |
| Lifecycle.BouncedReturnsThroughApi | mlops-blog/lambda/unsubscribe/index.js:134-191 | after a permanent bounce, an API unsubscribe without token answers 200 and a resubscribe then answers 200: the address is active again, unsubscribed by `api` |

## Left out

- Request parsing: a body that is not a JSON object, or whose fields have other types, is outside the model. The model covers a body that parses (`Some`) and one that does not (`None`).
- JavaScript's `$` patterns in replacement strings: the model treats replacements literally. A subscriber's name is stored without validation (mlops-blog/lambda/subscribe/index.js:92) and the address rule allows `$`, so a name such as `$&` is expanded by the source's `replace` but copied as written by the model.
- Unicode case mapping: `ToLower` lowers ASCII letters only.
- String comparison: `LexLess` compares code points, not UTF-16 code units; they differ only above U+FFFF.
- YAML front-matter parsing and gray-matter's conversion of dates to `Date` objects: front matter is given as strings.
- The reading-time estimate: it is a parameter.
- Path traversal through a slug: slugs are looked up as names in the directory.
- Read failures in `getAllPosts`: every listed file is assumed readable.
- Errors from DynamoDB (reads and writes) and the scan filter expression: the scan yields the matching pages as given.
- Token write-back failures: `updateUnsubscribeToken` catches them, and the model treats each write-back as succeeding.
- SES and CloudWatch failures: modelled only through the `sesAccepts`, `metricsOk`, `testSend` and `ses` parameters.
- The `details` field of 500 responses and all console logging.
- The unsubscribe log-table `put`: its own `try`/`catch` makes it invisible to the response and to the subscriber table.
- Stats pagination: the statistics handler reads one scan page.
- UnsubscribeLambda.StatsHandler: reasons and methods whose text names an `Object.prototype` member (`constructor`, `toString`, `valueOf`, `__proto__`, …) are outside the model. The source tallies them in a plain `{}` object (mlops-blog/lambda/unsubscribe/index.js:341-350), where such a key starts from an inherited value or is swallowed. The model counts every reason exactly, as a `map`.
- Concurrency: the sends within a batch run concurrently (`Promise.all`); the model performs them in order. `Promise.all` hands back the results in subscriber order, so the counts, the table and the order of `errors` are as modelled; only the interleaving of the calls in time is left out.
- The unreachable `catch` around a batch in `sendBulkEmails`.
- The `setTimeout` pause between batches: modelled as a count of pauses.
- The contents of the confirmation and welcome e-mails, and the subscriber-count helpers used only for metrics.
- Posts.SortByDate: the order among posts with equal dates is left unspecified. The source's comparator never returns 0, so that order depends on the engine.
- Decoding of query strings (`URLSearchParams` parsing): only the parameter list `updateURL` builds is read back (`ParamsRestoreState`); percent- and `+`-decoding of the serialised string are not modelled. `SerializeSplits` shows that the `&`-separated structure survives serialisation.
- Lifecycle.NewsletterLinkAccepted, UnsubscribeLambda.FeedbackLinkTokenAccepted: the link handler decodes the already-decoded address a second time (mlops-blog/lambda/unsubscribe/index.js:62), so an address that `decodeURIComponent` changes or rejects (one holding `%`) is looked up under another key. Acceptance by the link handler is stated only for addresses that decoding leaves as they are; for one it rejects, the error page is stated.
- Query-string transport: the model takes API Gateway to undo `encodeURIComponent` on the link's query string, so the handlers receive the address the link was built from.
- React rendering, styling and the admin form's state.
- ReplaceAll: its own contract states only that a pattern-free string is unchanged. What happens to each occurrence is stated, for all inputs, by `ReplaceAllFirstOccurrence`, `ReplaceAllPlainPrefix` and `ReplaceAllSingle`.
- DecodeEntities: its own contract states only that `&`-free text is unchanged. What each of the six references becomes is stated by `DecodesReference` and `DecodesAmpersand`, and the order of the replacements by `DoublyEncodedIsDecodedTwice`.
- StripHtml: its own contract states only the trimmed ends. Tag removal before decoding is stated by `EncodedTagSurvives`, and markup-free text by `StripHtmlOfUntagged` and `StripHtmlKeepsPlainText`. Tag removal keeps the text outside the tags (`PlainPrefixKept`, `TagAtFront`, `TagBetweenText`) and leaves no tag (`RemoveTagsLeavesNoTag`).
