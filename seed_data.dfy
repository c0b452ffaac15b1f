/** The seed data of lib/data/notes.ts: the categories and notes that the helpers of
    lib/utils.ts query directly. Timestamps are the milliseconds of the ISO-8601 strings
    the file holds, which the comment on each note gives. */
module SeedData {
  import opened Types

  const Categories: seq<Category> := [
    Category("business", "Business", "blue", "BookMarked"),
    Category("personal", "Personal", "green", "BookMarked"),
    Category("ideas", "Ideas", "amber", "BookMarked"),
    Category("projects", "Projects", "purple", "BookMarked")
  ]

  /** note-1: created 2023-06-01T10:30:00Z, updated 2023-06-05T14:20:00Z. */
  const Note1: Note := Note(
    "note-1", "Product Launch Strategy",
    "<p>Key points for our upcoming product launch:</p>" +
    "<ul>" +
    "<li>Finalize marketing materials by June 15</li>" +
    "<li>Schedule social media campaign</li>" +
    "<li>Prepare press release</li>" +
    "<li>Coordinate with sales team</li></ul>" +
    "<p>Budget allocation: $15,000</p>",
    "business", ["marketing", "product", "launch"], true, false, 42, 1685615400000, 1685974800000)

  /** note-2: created 2023-05-20T09:15:00Z, updated 2023-05-25T11:45:00Z. */
  const Note2: Note := Note(
    "note-2", "Summer Vacation Ideas",
    "<p>Potential destinations for summer vacation:</p>" +
    "<ul>" +
    "<li>Greece - Santorini and Athens</li>" +
    "<li>Japan - Tokyo and Kyoto</li>" +
    "<li>Italy - Rome, Florence, and Venice</li></ul>" +
    "<p>Budget: $3,000 - $5,000</p>" +
    "<p>Best time to visit: July-August</p>",
    "personal", ["travel", "vacation", "summer"], false, false, 15, 1684574100000, 1685015100000)

  /** note-3: created 2023-05-15T16:20:00Z, updated 2023-05-18T10:10:00Z. */
  const Note3: Note := Note(
    "note-3", "Mobile App Concept",
    "<p>App idea: Fitness tracker with social features</p>" +
    "<p>Key features:</p>" +
    "<ul>" +
    "<li>Workout tracking</li>" +
    "<li>Progress visualization</li>" +
    "<li>Friend challenges</li>" +
    "<li>Integration with wearables</li></ul>" +
    "<p>Target audience: 25-40 year olds interested in fitness</p>",
    "ideas", ["app", "fitness", "startup"], true, true, 28, 1684167600000, 1684404600000)

  /** note-4: created 2023-05-10T13:45:00Z, updated 2023-05-12T09:30:00Z. */
  const Note4: Note := Note(
    "note-4", "Website Redesign Project",
    "<p>Timeline for website redesign:</p>" +
    "<ul>" +
    "<li>Research and planning: 2 weeks</li>" +
    "<li>Wireframing: 1 week</li>" +
    "<li>Design: 2 weeks</li>" +
    "<li>Development: 4 weeks</li>" +
    "<li>Testing: 1 week</li>" +
    "<li>Launch: June 30</li></ul>",
    "projects", ["web", "design", "development"], false, false, 34, 1683726300000, 1683883800000)

  /** note-5: created 2023-05-05T20:15:00Z, updated 2023-05-07T18:30:00Z. */
  const Note5: Note := Note(
    "note-5", "Book Recommendations",
    "<p>Books to read this year:</p>" +
    "<ul>" +
    "<li>Atomic Habits by James Clear</li>" +
    "<li>Deep Work by Cal Newport</li>" +
    "<li>The Psychology of Money by Morgan Housel</li>" +
    "<li>Project Hail Mary by Andy Weir</li></ul>",
    "personal", ["books", "reading", "self-improvement"], false, true, 19, 1683317700000, 1683484200000)

  /** note-6: created 2023-06-02T11:20:00Z, updated 2023-06-03T14:10:00Z. */
  const Note6: Note := Note(
    "note-6", "Quarterly Business Goals",
    "<p>Q3 Goals:</p>" +
    "<ul>" +
    "<li>Increase revenue by 15%</li>" +
    "<li>Launch new product line</li>" +
    "<li>Hire 2 new developers</li>" +
    "<li>Expand to European market</li></ul>" +
    "<p>Key metrics to track: MRR, CAC, LTV</p>",
    "business", ["goals", "planning", "quarterly"], true, false, 37, 1685704800000, 1685801400000)

  /** note-7: created 2023-05-25T15:40:00Z, updated 2023-05-26T10:20:00Z. */
  const Note7: Note := Note(
    "note-7", "Home Renovation Ideas",
    "<p>Kitchen renovation:</p>" +
    "<ul>" +
    "<li>New countertops - quartz or granite</li>" +
    "<li>Replace cabinet doors</li>" +
    "<li>Add kitchen island</li>" +
    "<li>New lighting fixtures</li></ul>" +
    "<p>Estimated budget: $15,000 - $20,000</p>",
    "personal", ["home", "renovation", "kitchen"], false, false, 12, 1685029200000, 1685096400000)

  /** note-8: created 2023-05-18T09:30:00Z, updated 2023-05-20T16:15:00Z. */
  const Note8: Note := Note(
    "note-8", "AI Product Ideas",
    "<p>Potential AI products to develop:</p>" +
    "<ul>" +
    "<li>Content generation tool for marketers</li>" +
    "<li>AI-powered customer service chatbot</li>" +
    "<li>Predictive analytics for e-commerce</li>" +
    "<li>Personalized learning platform</li></ul>" +
    "<p>Market size: $15B by 2025</p>",
    "ideas", ["ai", "product", "innovation"], true, true, 45, 1684402200000, 1684599300000)

  const Notes: seq<Note> := [Note1, Note2, Note3, Note4, Note5, Note6, Note7, Note8]
}
